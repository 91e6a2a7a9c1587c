/** The eql_json matcher: it holds the expected value, records the actual one,
    and builds its failure message by running the diff engine of the
    DiffDescriptions mixin over its own @message and @reported_differences. */
module Matching {
  import opened Json
  import opened ValuePath
  import opened Grouping
  import opened DiffDescriptions

  /** The three header paragraphs failure_message appends before the blocks. */
  function Header(deps: Deps, expected: Json, actual: Json): string {
    "Expected: " + ToS(deps, expected) + "\n\n"
    + "Actual: " + ToS(deps, actual) + "\n\n"
    + "Differences\n\n"
  }

  /** The three `+=` of failure_message append the header. */
  lemma {:induction false} HeaderSteps(deps: Deps, expected: Json, actual: Json, m0: string, m1: string, m2: string, m3: string)
    requires m1 == m0 + "Expected: " + ToS(deps, expected) + "\n\n"
    requires m2 == m1 + "Actual: " + ToS(deps, actual) + "\n\n"
    requires m3 == m2 + "Differences\n\n"
    ensures m3 == m0 + Header(deps, expected, actual)
  {
  }

  /** failure_message run from the fields o: the header, then the engine at
      the empty path. */
  function FailureRun(deps: Deps, o: Output, expected: Json, actual: Json, depth: nat): Run {
    DiffRun(deps, actual, expected, "", depth, Output(o.message + Header(deps, expected, actual), o.reported))
  }

  /** A first failure_message, on a matcher whose fields are still empty: the
      header, then the text of the first block offered for each attribute, in
      the order the engine offers them; each attribute reported once; and it
      raises exactly when the engine does. */
  lemma {:induction false} FirstFailure(deps: Deps, expected: Json, actual: Json, depth: nat)
    ensures var r := FailureRun(deps, Output("", map[]), expected, actual, depth);
      var t := DiffTrace(deps, actual, expected, "", depth);
      r.raised == t.raised &&
      r.out.message == Header(deps, expected, actual) + Texts(Fresh({}, t.blocks)) &&
      DistinctAttributes(Fresh({}, t.blocks)) &&
      r.out.reported.Keys == Attributes(t.blocks)
  {
    var o := Output(Header(deps, expected, actual), map[]);
    var t := DiffTrace(deps, actual, expected, "", depth);
    assert "" + Header(deps, expected, actual) == Header(deps, expected, actual);
    assert o.reported.Keys == {};
    DiffRunPlays(deps, actual, expected, "", depth, o);
    EmitFresh(o, t.blocks);
    FreshFirstOccurrences({}, t.blocks);
  }

  /** When Hashdiff finds no difference the message gains the header only. */
  lemma {:induction false} NoDifferencesHeaderOnly(deps: Deps, o: Output, expected: Json, actual: Json, depth: nat)
    requires deps.hashdiff(actual, expected) == []
    ensures FailureRun(deps, o, expected, actual, depth)
         == Run(Output(o.message + Header(deps, expected, actual), o.reported), false)
  {
    var o' := Output(o.message + Header(deps, expected, actual), o.reported);
    NoTriplesNothing(deps, actual, expected, "", depth);
    DiffRunPlays(deps, actual, expected, "", depth, o');
    assert Emit(o', []) == o';
  }

  /** A second failure_message on the same matcher appends the header again
      and nothing else: every attribute it offers is already reported. */
  lemma {:induction false} RepeatedFailure(deps: Deps, o: Output, expected: Json, actual: Json, depth: nat)
    ensures var first := FailureRun(deps, o, expected, actual, depth);
      var second := FailureRun(deps, first.out, expected, actual, depth);
      second.out.message == first.out.message + Header(deps, expected, actual) &&
      second.out.reported == first.out.reported && second.raised == first.raised
  {
    var t := DiffTrace(deps, actual, expected, "", depth);
    var o1 := Output(o.message + Header(deps, expected, actual), o.reported);
    DiffRunPlays(deps, actual, expected, "", depth, o1);
    var first := Emit(o1, t.blocks);
    EmitFresh(o1, t.blocks);
    var o2 := Output(first.message + Header(deps, expected, actual), first.reported);
    DiffRunPlays(deps, actual, expected, "", depth, o2);
    EmitCovered(o2, t.blocks);
  }

  class Matcher {
    const expected: Json
    var actual: Json
    var message: string
    var reportedDifferences: map<string, bool>

    /** The state the diff engine writes. */
    function Out(): Output
      reads this
    {
      Output(message, reportedDifferences)
    }

    /** initialize(expected). @actual is nil until matches? is called. */
    constructor (expected: Json)
      ensures this.expected == expected
      ensures actual == JNull && message == "" && reportedDifferences == map[]
    {
      this.expected := expected;
      actual := JNull;
      message := "";
      reportedDifferences := map[];
    }

    /** diffable?: the matcher presents its own diff. */
    function Diffable(): (r: bool)
      ensures !r
    {
      false
    }

    /** matches?(actual): records actual and compares it with expected by
        structural equality (Hash equality ignores key order). */
    method Matches(actual: Json) returns (r: bool)
      modifies this`actual
      ensures this.actual == actual
      ensures r <==> expected == actual
    {
      this.actual := actual;
      r := expected == this.actual;
    }

    /** failure_message: appends the header to the message as it stands, runs
        the engine on (actual, expected) at the empty path, and returns the
        message; Raised when the engine raises. */
    method FailureMessage(deps: Deps, depth: nat) returns (r: Outcome<string>)
      modifies this`message, this`reportedDifferences
      ensures Out() == FailureRun(deps, old(Out()), expected, actual, depth).out
      ensures r == if FailureRun(deps, old(Out()), expected, actual, depth).raised then Raised else Ok(message)
    {
      ghost var m0 := message;
      message := message + "Expected: " + ToS(deps, expected) + "\n\n";
      ghost var m1 := message;
      message := message + "Actual: " + ToS(deps, actual) + "\n\n";
      ghost var m2 := message;
      message := message + "Differences\n\n";
      HeaderSteps(deps, expected, actual, m0, m1, m2, message);
      var raised := AddDiffToMessage(deps, actual, expected, "", depth);
      r := if raised then Raised else Ok(message);
    }

    /** already_reported_difference?(attribute). */
    method AlreadyReportedDifference(attribute: string) returns (r: bool)
      ensures r <==> attribute in reportedDifferences
    {
      r := attribute in reportedDifferences;
    }

    /** append_to_message(attribute, diff_description). */
    method AppendToMessage(attribute: string, description: string)
      modifies this`message, this`reportedDifferences
      ensures Out() == Append(old(Out()), Block(attribute, description))
    {
      var reported := AlreadyReportedDifference(attribute);
      if reported {
        return;
      }
      message := message + description;
      reportedDifferences := reportedDifferences[attribute := true];
    }

    /** append_diff_to_message(path, expected, actual). */
    method AppendDiffToMessage(deps: Deps, path: string, expected: Json, actual: Json)
      modifies this`message, this`reportedDifferences
      ensures Out() == Append(old(Out()), DiffBlock(deps, path, expected, actual))
    {
      AppendToMessage(path, GetDiff(deps, path, expected, actual));
    }

    /** add_diff_to_message(actual_value, expected_value, path): sorts and
        groups the Hashdiff triples, then resolves each group in turn. */
    method AddDiffToMessage(deps: Deps, actualValue: Json, expectedValue: Json, path: string, depth: nat)
      returns (raised: bool)
      modifies this`message, this`reportedDifferences
      ensures Run(Out(), raised) == DiffRun(deps, actualValue, expectedValue, path, depth, old(Out()))
      decreases depth, 0
    {
      if depth == 0 {
        return false;
      }
      var inner: nat := depth - 1;
      var sorted := SortByName(deps.hashdiff(actualValue, expectedValue));
      var groups := GroupByName(sorted);
      assert groups == HashdiffGroups(deps, actualValue, expectedValue);
      var names, byName := groups.names, groups.byName;
      ghost var whole := DiffRun(deps, actualValue, expectedValue, path, depth, Out());
      var i := 0;
      while i < |names|
        invariant 0 <= i <= |names|
        invariant GroupsRun(deps, actualValue, expectedValue, path, names, byName, i, inner, Out()) == whole
      {
        var name := names[i];
        var r := ResolveAndAppendDiffTo(deps, path, name, expectedValue, actualValue, byName[name], inner);
        if r {
          return true;
        }
        i := i + 1;
      }
      return false;
    }

    /** resolve_and_append_diff_to: resolves the group's two sides, then
        descends into two non-empty Hashes, or element by element into two
        Arrays with a truthy element, or else appends one block. */
    method ResolveAndAppendDiffTo(deps: Deps, path: string, name: string, expectedValue: Json, actualValue: Json,
                                  difference: Group, depth: nat)
      returns (raised: bool)
      modifies this`message, this`reportedDifferences
      ensures Run(Out(), raised) == GroupRun(deps, path, name, difference, expectedValue, actualValue, depth, old(Out()))
      decreases depth, 1
    {
      GroupRunCases(deps, path, name, difference, expectedValue, actualValue, depth, Out());
      var changes := ResolveChanges(difference, expectedValue, actualValue, name);
      if changes.Raised? {
        return true;
      }
      var extraValue, missingValue, differentValue := changes.value.extra, changes.value.missing, changes.value.different;
      var fullPath := FullPath(path, name);
      if NonEmptyHash(missingValue) && NonEmptyHash(extraValue) {
        raised := AddDiffToMessage(deps, missingValue, extraValue, fullPath, depth);
      } else if NonEmptyArray(missingValue) && NonEmptyArray(extraValue) {
        // `[missing_value.length, extra_value.length].max.times`: the elements
        // pairwise under the same full path, nil past either end
        var missing, extra := missingValue.elems, extraValue.elems;
        var n := Max(|missing|, |extra|);
        ghost var whole := ElementsRun(deps, missing, extra, fullPath, 0, n, depth, Out());
        var i := 0;
        while i < n
          invariant 0 <= i <= n
          invariant ElementsRun(deps, missing, extra, fullPath, i, n, depth, Out()) == whole
        {
          var r := AddDiffToMessage(deps, At(missing, i), At(extra, i), fullPath, depth);
          if r {
            return true;
          }
          i := i + 1;
        }
        return false;
      } else if difference.changed.Some? {
        var value := ValueAtPath(expectedValue, name);
        if value.Raised? {
          return true;
        }
        AppendDiffToMessage(deps, fullPath, value.value, differentValue);
        raised := false;
      } else {
        AppendDiffToMessage(deps, fullPath, extraValue, missingValue);
        raised := false;
      }
    }
  }
}
