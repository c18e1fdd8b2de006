/** The secret filter of filter/filter.go. Regular expressions are a foreign library
    here: a compiled pattern is any value of the type parameter M, compiling is the
    function `compile` and matching is the function `matches`; the decision logic on
    top of them is what the model states. */
module Filter {
  import opened Wrappers

  /** The two actions the filter acts on; any other action string is accepted and
      filters nothing. */
  const Redact: string := "redact"
  const Block: string := "block"

  /** What a redacted line is replaced with. */
  const RedactedMarker: string := "[REDACTED]"

  /** SecretFilter (filter/filter.go:8-11): the compiled patterns, in configured order,
      and the action string exactly as configured. */
  datatype SecretFilter<M> = SecretFilter(patterns: seq<M>, action: string)

  /** The construction error (filter/filter.go:18): it names the pattern that failed. */
  datatype FilterError = InvalidPattern(pattern: string)

  /** Some pattern of `patterns` matches `line`. */
  predicate AnyMatch<M>(patterns: seq<M>, matches: (M, string) -> bool, line: string)
  {
    exists i :: 0 <= i < |patterns| && matches(patterns[i], line)
  }

  /** The test "no pattern matches", as a predicate on lines. */
  function NotMatching<M>(patterns: seq<M>, matches: (M, string) -> bool): string -> bool
  {
    x => !AnyMatch(patterns, matches, x)
  }

  /** NewSecretFilter (filter/filter.go:13-23): compile the patterns in order and stop
      at the first one that does not compile. */
  method NewSecretFilter<M>(compile: string -> Option<M>, patterns: seq<string>, action: string)
    returns (r: Result<SecretFilter<M>, FilterError>)
    ensures r.Err? <==> exists i :: 0 <= i < |patterns| && compile(patterns[i]).None?
    ensures r.Err? ==>
              exists i :: && 0 <= i < |patterns| && compile(patterns[i]).None?
                          && r.error == InvalidPattern(patterns[i])
                          && forall j :: 0 <= j < i ==> compile(patterns[j]).Some?
    ensures r.Ok? ==>
              && r.value.action == action
              && |r.value.patterns| == |patterns|
              && forall i :: 0 <= i < |patterns| ==> compile(patterns[i]) == Some(r.value.patterns[i])
  {
    var regexps: seq<M> := [];
    for i := 0 to |patterns|
      invariant |regexps| == i
      invariant forall j :: 0 <= j < i ==> compile(patterns[j]) == Some(regexps[j])
    {
      var compiled := compile(patterns[i]);
      if compiled.None? {
        return Err(InvalidPattern(patterns[i]));
      }
      regexps := regexps + [compiled.value];
    }
    return Ok(SecretFilter(regexps, action));
  }

  /** FilterLine (filter/filter.go:25-36): try the patterns in order; the first match
      decides when the action is "redact" or "block", and with any other action the
      scan goes on and ends with the line unchanged. The second component is the
      "matched" flag. */
  function FilterLine<M>(f: SecretFilter<M>, matches: (M, string) -> bool, line: string): (r: (string, bool))
    ensures AnyMatch(f.patterns, matches, line) && f.action == Redact ==> r == (RedactedMarker, true)
    ensures AnyMatch(f.patterns, matches, line) && f.action == Block ==> r == ("", true)
    ensures !AnyMatch(f.patterns, matches, line) || (f.action != Redact && f.action != Block)
      ==> r == (line, false)
    decreases |f.patterns|
  {
    if f.patterns == [] then (line, false)
    else if matches(f.patterns[0], line) && f.action == Redact then (RedactedMarker, true)
    else if matches(f.patterns[0], line) && f.action == Block then ("", true)
    else
      var rest := f.(patterns := f.patterns[1..]);
      assert AnyMatch(f.patterns, matches, line) ==>
        matches(f.patterns[0], line) || AnyMatch(rest.patterns, matches, line) by {
        if AnyMatch(f.patterns, matches, line) {
          var i :| 0 <= i < |f.patterns| && matches(f.patterns[i], line);
          if i > 0 { assert rest.patterns[i - 1] == f.patterns[i]; }
        }
      }
      assert AnyMatch(rest.patterns, matches, line) ==> AnyMatch(f.patterns, matches, line) by {
        if AnyMatch(rest.patterns, matches, line) {
          var i :| 0 <= i < |rest.patterns| && matches(rest.patterns[i], line);
          assert f.patterns[i + 1] == rest.patterns[i];
        }
      }
      FilterLine(rest, matches, line)
  }

  /** The outcome depends only on the action and on whether some pattern matches, not
      on which pattern or how many (filter/filter.go:26-33). */
  lemma FilterLineDependsOnlyOnAnyMatch<M>(f: SecretFilter<M>, g: SecretFilter<M>,
                                           matches: (M, string) -> bool, line: string)
    requires f.action == g.action
    requires AnyMatch(f.patterns, matches, line) == AnyMatch(g.patterns, matches, line)
    ensures FilterLine(f, matches, line) == FilterLine(g, matches, line)
  {
  }

  /** With no patterns every line passes unchanged (filter/filter.go:26, 35). */
  lemma FilterLineNoPatterns<M>(action: string, matches: (M, string) -> bool, line: string)
    ensures FilterLine(SecretFilter([], action), matches, line) == (line, false)
  {
  }

  /** The filter set-up of main.go:38-44: no filter when filtering is disabled, else the
      filter NewSecretFilter builds; an invalid pattern is a fatal error, so no cycle
      ever sees a partially built filter. */
  method SetupFilter<M>(compile: string -> Option<M>, enabled: bool, patterns: seq<string>, action: string)
    returns (r: Result<Option<SecretFilter<M>>, FilterError>)
    ensures !enabled ==> r == Ok(None)
    ensures enabled ==> (r.Err? <==> exists i :: 0 <= i < |patterns| && compile(patterns[i]).None?)
    ensures enabled && r.Ok? ==> r.value.Some?
    ensures r.Err? ==>
              exists i :: && 0 <= i < |patterns| && compile(patterns[i]).None?
                          && r.error == InvalidPattern(patterns[i])
                          && forall j :: 0 <= j < i ==> compile(patterns[j]).Some?
    ensures r.Ok? && r.value.Some? ==>
              && enabled
              && r.value.value.action == action
              && |r.value.value.patterns| == |patterns|
              && forall i :: 0 <= i < |patterns| ==> compile(patterns[i]) == Some(r.value.value.patterns[i])
  {
    if !enabled {
      return Ok(None);
    }
    var built := NewSecretFilter(compile, patterns, action);
    match built
    case Ok(f) => return Ok(Some(f));
    case Err(e) => return Err(e);
  }
}
