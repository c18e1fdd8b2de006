/** The line-set merger of history/history.go: a deduplicated union of the local and
    remote history in which local lines come first. */
module History {
  import opened Lines

  /** The first occurrence of every line of `s`, in the order of `s`: the value a `seen`
      set and an append-only output produce when fed `s` one line at a time. */
  function Dedup(s: seq<Line>): (r: seq<Line>)
    ensures forall x :: x in r <==> x in s
  {
    if s == [] then []
    else
      var d := Dedup(s[..|s| - 1]);
      if s[|s| - 1] in d then d else d + [s[|s| - 1]]
  }

  /** The specification of MergeHistories: the deduplicated concatenation. */
  function Merge(local: seq<Line>, remote: seq<Line>): seq<Line>
  {
    Dedup(local + remote)
  }

  /** MergeHistories (history/history.go:41-57): two passes that append every line not
      yet in `seen` and then record it there. */
  method MergeHistories(local: seq<Line>, remote: seq<Line>) returns (merged: seq<Line>)
    ensures merged == Merge(local, remote)
  {
    var seen: set<Line> := {};
    merged := [];
    for i := 0 to |local|
      invariant merged == Dedup(local[..i])
      invariant forall x :: x in seen <==> x in merged
    {
      var line := local[i];
      assert local[..i + 1] == local[..i] + [line];
      DedupSnoc(local[..i], line);
      if line !in seen {
        merged := merged + [line];
        seen := seen + {line};
      }
    }
    assert local[..|local|] == local == local + remote[..0];
    for i := 0 to |remote|
      invariant merged == Dedup(local + remote[..i])
      invariant forall x :: x in seen <==> x in merged
    {
      var line := remote[i];
      assert local + remote[..i + 1] == (local + remote[..i]) + [line];
      DedupSnoc(local + remote[..i], line);
      if line !in seen {
        merged := merged + [line];
        seen := seen + {line};
      }
    }
    assert remote[..|remote|] == remote;
  }

  /** Dedup never keeps a line twice. */
  lemma {:induction false} DedupNoDuplicates(s: seq<Line>)
    ensures NoDuplicates(Dedup(s))
  {
    if s != [] {
      DedupNoDuplicates(s[..|s| - 1]);
    }
  }

  /** A duplicate-free sequence is its own deduplication. */
  lemma {:induction false} DedupOfDistinct(s: seq<Line>)
    requires NoDuplicates(s)
    ensures Dedup(s) == s
  {
    if s != [] {
      var init := s[..|s| - 1];
      assert NoDuplicates(init);
      DedupOfDistinct(init);
      assert s[|s| - 1] !in init;
      assert s == init + [s[|s| - 1]];
    }
  }

  /** Dedup keeps the lines in the order of their first occurrence in the input. */
  lemma {:induction false} DedupFirstOccurrenceOrder(s: seq<Line>)
    ensures forall j, k :: 0 <= j < k < |Dedup(s)| ==>
      FirstIndex(s, Dedup(s)[j]) < FirstIndex(s, Dedup(s)[k])
  {
    if s != [] {
      var init, y := s[..|s| - 1], s[|s| - 1];
      assert s == init + [y];
      DedupFirstOccurrenceOrder(init);
      var d := Dedup(init);
      forall x | x in d
        ensures FirstIndex(s, x) == FirstIndex(init, x) < |init|
      {
        FirstIndexExtend(init, y, x);
      }
      if y !in d {
        assert FirstIndex(s, y) == |init| by {
          assert y !in s[..|init|];
        }
        assert Dedup(s) == d + [y];
        forall j, k | 0 <= j < k < |Dedup(s)|
          ensures FirstIndex(s, Dedup(s)[j]) < FirstIndex(s, Dedup(s)[k])
        {
          assert Dedup(s)[j] == d[j];
          if k < |d| {
            assert Dedup(s)[k] == d[k];
          }
        }
      }
    }
  }

  /** The output of Merge splits into the local lines, deduplicated, followed by the
      remote lines that are not local, deduplicated, in remote order
      (history/history.go:44-49 and 50-55). */
  lemma {:induction false} MergeSplit(local: seq<Line>, remote: seq<Line>)
    ensures Merge(local, remote) == Dedup(local) + Keep(Dedup(remote), NotIn(local))
  {
    if remote == [] {
      assert local + remote == local;
    } else {
      var init, y := remote[..|remote| - 1], remote[|remote| - 1];
      assert remote == init + [y];
      MergeSplit(local, init);
      MergeSplitStep(local, init, y);
    }
  }

  /** The inductive step of MergeSplit: one more remote line. */
  lemma MergeSplitStep(local: seq<Line>, init: seq<Line>, y: Line)
    requires Merge(local, init) == Dedup(local) + Keep(Dedup(init), NotIn(local))
    ensures Merge(local, init + [y]) == Dedup(local) + Keep(Dedup(init + [y]), NotIn(local))
  {
    var a, b := Dedup(local), Dedup(init);
    var k := Keep(b, NotIn(local));
    assert y in a <==> y in local;
    assert y in k <==> y in b && y !in local;
    MergeSnoc(local, init, y);
    DedupSnoc(init, y);
    KeepDedupSnoc(local, init, y);
    SplitAppend(a, b, k, Merge(local, init), Dedup(init + [y]), Keep(Dedup(init + [y]), NotIn(local)),
                Merge(local, init + [y]), y, y in local);
  }

  /** One more remote line is appended to the merge exactly when it is new. */
  lemma MergeSnoc(local: seq<Line>, init: seq<Line>, y: Line)
    ensures Merge(local, init + [y])
         == if y in Merge(local, init) then Merge(local, init) else Merge(local, init) + [y]
  {
    assert local + (init + [y]) == (local + init) + [y];
    DedupSnoc(local + init, y);
  }

  /** One more remote line reaches the non-local part when it is neither seen nor local. */
  lemma KeepDedupSnoc(local: seq<Line>, init: seq<Line>, y: Line)
    ensures Keep(Dedup(init + [y]), NotIn(local))
         == if y in Dedup(init) || y in local then Keep(Dedup(init), NotIn(local))
            else Keep(Dedup(init), NotIn(local)) + [y]
  {
    DedupSnoc(init, y);
    KeepSnoc(Dedup(init), y, NotIn(local));
  }

  /** The bookkeeping of MergeSplitStep on plain sequences: `a` stands for the local
      part, `k` for the remote part, `m` for the merge, and the primed values for the
      same after line `y`. */
  lemma SplitAppend(a: seq<Line>, b: seq<Line>, k: seq<Line>, m: seq<Line>,
                    b2: seq<Line>, k2: seq<Line>, m2: seq<Line>, y: Line, isLocal: bool)
    requires m == a + k
    requires y in a <==> isLocal
    requires y in k <==> y in b && !isLocal
    requires b2 == if y in b then b else b + [y]
    requires k2 == if y in b || isLocal then k else k + [y]
    requires m2 == if y in m then m else m + [y]
    ensures m2 == a + k2
  {
    if !(y in b || isLocal) {
      assert a + (k + [y]) == (a + k) + [y];
    }
  }

  /** Feeding one more line to Dedup appends it exactly when it is new. */
  lemma DedupSnoc(s: seq<Line>, y: Line)
    ensures Dedup(s + [y]) == if y in Dedup(s) then Dedup(s) else Dedup(s) + [y]
  {
    assert (s + [y])[..|s|] == s;
  }

  /** Merge has no duplicates, loses no line and invents none. */
  lemma MergeIsDuplicateFreeUnion(local: seq<Line>, remote: seq<Line>)
    ensures NoDuplicates(Merge(local, remote))
    ensures forall x :: x in Merge(local, remote) <==> x in local || x in remote
  {
    DedupNoDuplicates(local + remote);
  }

  /** Every line sits at the position of its first occurrence, local lines taking
      priority over remote ones (history/history.go:42-56). */
  lemma MergeFirstOccurrenceOrder(local: seq<Line>, remote: seq<Line>)
    ensures var m := Merge(local, remote);
      forall j, k :: 0 <= j < k < |m| ==>
        FirstIndex(local + remote, m[j]) < FirstIndex(local + remote, m[k])
  {
    DedupFirstOccurrenceOrder(local + remote);
  }

  /** With one side empty Merge is the deduplication of the other; with both empty it
      is empty (history/history.go:43-56). */
  lemma MergeWithEmpty(local: seq<Line>, remote: seq<Line>)
    ensures Merge(local, []) == Dedup(local)
    ensures Merge([], remote) == Dedup(remote)
    ensures Merge([], []) == []
  {
    assert local + [] == local;
    assert [] + remote == remote;
  }

  /** Duplicate-free, disjoint inputs are concatenated unchanged (history/history.go:41-57). */
  lemma MergeOfDisjoint(local: seq<Line>, remote: seq<Line>)
    requires NoDuplicates(local) && NoDuplicates(remote)
    requires forall x :: x in local ==> x !in remote
    ensures Merge(local, remote) == local + remote
    ensures |Merge(local, remote)| == |local| + |remote|
  {
    var s := local + remote;
    forall i, j | 0 <= i < j < |s| ensures s[i] != s[j] {
      if j < |local| {
        assert s[i] == local[i] && s[j] == local[j];
      } else if i >= |local| {
        assert s[i] == remote[i - |local|] && s[j] == remote[j - |local|];
      } else {
        assert s[i] in local && s[j] in remote;
      }
    }
    DedupOfDistinct(s);
  }

  /** The worked example of two machines sharing `cd /tmp`. */
  lemma MergeExample()
    ensures Merge(["ls -la", "cd /tmp"], ["cd /tmp", "rm -rf /tmp/x"])
         == ["ls -la", "cd /tmp", "rm -rf /tmp/x"]
  {
    var s: seq<Line> := ["ls -la", "cd /tmp", "cd /tmp", "rm -rf /tmp/x"];
    assert ["ls -la", "cd /tmp"] + ["cd /tmp", "rm -rf /tmp/x"] == s;
    assert s[..3][..2] == ["ls -la", "cd /tmp"];
    assert s[..3][..2][..1] == ["ls -la"];
    assert Dedup(["ls -la"]) == ["ls -la"];
    assert Dedup(["ls -la", "cd /tmp"]) == ["ls -la", "cd /tmp"];
    assert Dedup(s[..3]) == ["ls -la", "cd /tmp"];
  }
}
