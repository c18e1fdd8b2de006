/** History lines and the sequence operations the specifications are written with. */
module Lines {

  /** One history entry; identity is exact string equality. */
  type Line = string

  /** No line occurs twice. */
  predicate NoDuplicates(s: seq<Line>)
  {
    forall i, j :: 0 <= i < j < |s| ==> s[i] != s[j]
  }

  /** The lines of `s` that satisfy `p`, in their order in `s`. */
  function Keep(s: seq<Line>, p: Line -> bool): (r: seq<Line>)
    ensures |r| <= |s|
    ensures forall x :: x in r <==> x in s && p(x)
  {
    if s == [] then []
    else Keep(s[..|s| - 1], p) + (if p(s[|s| - 1]) then [s[|s| - 1]] else [])
  }

  /** Keep looks at one more line. */
  lemma KeepSnoc(s: seq<Line>, y: Line, p: Line -> bool)
    ensures Keep(s + [y], p) == Keep(s, p) + (if p(y) then [y] else [])
  {
    assert (s + [y])[..|s|] == s;
  }

  /** The test "does not occur in `excluded`", as a predicate for Keep. */
  function NotIn(excluded: seq<Line>): Line -> bool
  {
    x => x !in excluded
  }

  /** `f` applied to every line of `s`, in order. */
  function MapLines(s: seq<Line>, f: Line -> Line): (r: seq<Line>)
    ensures |r| == |s|
    ensures forall i :: 0 <= i < |s| ==> r[i] == f(s[i])
  {
    seq(|s|, i requires 0 <= i < |s| => f(s[i]))
  }

  /** The suffix from index `i` is its first line followed by the suffix from `i + 1`. */
  lemma SuffixCons(s: seq<Line>, i: nat)
    requires i < |s|
    ensures s[i..] == [s[i]] + s[i + 1..]
  {
  }

  /** Concatenation is associative. */
  lemma AppendAssoc<T>(a: seq<T>, b: seq<T>, c: seq<T>)
    ensures (a + b) + c == a + (b + c)
  {
  }

  /** MapLines distributes over concatenation. */
  lemma MapLinesAppend(s: seq<Line>, t: seq<Line>, f: Line -> Line)
    ensures MapLines(s + t, f) == MapLines(s, f) + MapLines(t, f)
  {
  }

  /** `n` copies of `s`, one after the other. */
  function Repeat(s: seq<Line>, n: nat): (r: seq<Line>)
    ensures |r| == n * |s|
  {
    if n == 0 then [] else s + Repeat(s, n - 1)
  }

  /** The index of the first occurrence of `x` in `s`. */
  function FirstIndex(s: seq<Line>, x: Line): (i: nat)
    requires x in s
    ensures i < |s| && s[i] == x && x !in s[..i]
  {
    if s[0] == x then 0
    else
      var k := FirstIndex(s[1..], x);
      assert s[..k + 1] == [s[0]] + s[1..][..k];
      k + 1
  }

  /** Extending a sequence does not move the first occurrence of a line it already holds. */
  lemma FirstIndexExtend(s: seq<Line>, y: Line, x: Line)
    requires x in s
    ensures FirstIndex(s + [y], x) == FirstIndex(s, x)
  {
    var i, j := FirstIndex(s, x), FirstIndex(s + [y], x);
    assert s[..i] == (s + [y])[..i];
    assert (s + [y])[i] == x;
  }
}
