/** The diff-description engine of DiffDescriptions, stated as functions.

    One level of add_diff_to_message asks Hashdiff for the triples of
    (actual, expected), groups them, and for each group either descends (two
    non-empty Hashes, or two Arrays with a truthy element) or describes one
    difference. What it tries to append does not depend on what was appended
    before, so the engine is specified in two parts: DiffTrace, the sequence of
    blocks it offers to append_to_message (and whether it raised on the way),
    and Emit, what append_to_message makes of such a sequence: a block whose
    attribute is already reported is dropped, any other one is appended. */
module DiffDescriptions {
  import opened Json
  import opened RubyText
  import opened ValuePath
  import opened Grouping

  /** What the engine calls and this model does not define: Hashdiff.diff
      (actual first, expected second) and the to_s of an Array or a Hash. */
  datatype Deps = Deps(hashdiff: (Json, Json) -> seq<Triple>, inspect: Json -> string)

  // ---------------------------------------------------------------------------
  // Formatting (get_diff, format_value)

  /** true.to_s and false.to_s. */
  function BoolToS(b: bool): string {
    if b then "true" else "false"
  }

  /** String interpolation "#{v}": a String as it is, nil as nothing, booleans
      and Integers in their usual form, Arrays and Hashes through inspect. */
  function ToS(deps: Deps, v: Json): string {
    match v
    case JNull => ""
    case JBool(b) => BoolToS(b)
    case JInt(i) => IntToString(i)
    case JStr(s) => s
    case _ => deps.inspect(v)
  }

  /** format_value: a String comes back in single quotes, which strip off to
      give the String again; any other value comes back as it is. */
  function FormatValue(v: Json): (r: Json)
    ensures v.JStr? ==> r.JStr? && |r.s| == |v.s| + 2 && r.s[0] == '\'' && r.s[|r.s| - 1] == '\''
                        && r.s[1..|r.s| - 1] == v.s
    ensures !v.JStr? ==> r == v
  {
    if v.JStr? then JStr("'" + v.s + "'") else v
  }

  /** get_diff: the three-line block for one difference, then a blank line,
      built up as the source does with `+=`. */
  function GetDiff(deps: Deps, attribute: string, expected: Json, actual: Json): string {
    var description := attribute + "\n";
    var description := description + ("Expected: " + ToS(deps, FormatValue(expected)) + "\n");
    description + ("Actual: " + ToS(deps, FormatValue(actual)) + "\n\n")
  }

  /** A block starts with its attribute on a line of its own and ends with a
      blank line. */
  lemma {:induction false} GetDiffLayout(deps: Deps, attribute: string, expected: Json, actual: Json)
    ensures attribute + "\n" <= GetDiff(deps, attribute, expected, actual)
    ensures var d := GetDiff(deps, attribute, expected, actual);
      |d| >= 2 && d[|d| - 2..] == "\n\n"
  {
    var head := attribute + "\n";
    var second := "Expected: " + ToS(deps, FormatValue(expected)) + "\n";
    var third := "Actual: " + ToS(deps, FormatValue(actual)) + "\n\n";
    var lead := "Actual: " + ToS(deps, FormatValue(actual));
    PrefixOfAppend(head, second);
    PrefixOfAppend(head + second, third);
    SuffixOfAppend(lead, "\n\n");
    SuffixOfAppend(head + second, third);
  }

  lemma {:induction false} PrefixOfAppend(a: string, b: string)
    ensures a <= a + b
  {
    assert (a + b)[..|a|] == a;
  }

  lemma {:induction false} SuffixOfAppend(a: string, b: string)
    ensures (a + b)[|a + b| - |b|..] == b
  {
  }

  /** A String value is quoted in a block. */
  lemma {:induction false} QuotedString(deps: Deps, x: string)
    ensures ToS(deps, FormatValue(JStr(x))) == "'" + x + "'"
  {
  }

  /** An Integer is written in decimal, unquoted, and String#to_i reads it
      back. */
  lemma {:induction false} IntegerReadsBack(deps: Deps, i: int)
    ensures ToS(deps, FormatValue(JInt(i))) == IntToString(i)
    ensures ToI(ToS(deps, FormatValue(JInt(i)))) == i
  {
    IntToStringToI(i);
  }

  /** -12 is written "-12". */
  lemma {:induction false} MinusTwelve()
    ensures IntToString(-12) == "-12"
  {
    assert NatToString(12) == NatToString(1) + ['2'];
  }

  // ---------------------------------------------------------------------------
  // Paths and shapes

  /** full_path: the group's name under the prefix, joined by ".". */
  function FullPath(path: string, name: string): string {
    if path != "" then path + "." + name else name
  }

  /** A full path resolves as its prefix followed by the name. */
  lemma {:induction false} FullPathResolves(root: Json, path: string, name: string)
    ensures path != "" ==> ValueAt(root, FullPath(path, name)) == Continue(ValueAt(root, path), Segments(name))
    ensures path == "" ==> ValueAt(root, FullPath(path, name)) == ValueAt(root, name)
  {
    if path != "" {
      ValueAtJoined(root, path, '.', name);
    }
  }

  /** non_empty_hash?: a Hash with at least one entry (Hash#any?). */
  predicate NonEmptyHash(v: Json) {
    v.JObj? && |v.fields| > 0
  }

  /** non_empty_array?: Array#any?, which holds for an Array with an element
      that is neither nil nor false. */
  predicate NonEmptyArray(v: Json) {
    v.JArr? && exists k :: 0 <= k < |v.elems| && Truthy(v.elems[k])
  }

  /** The two shape tests: a Hash needs an entry, an Array a truthy element, so
      `{}`, `[]` and `[nil, false]` pass neither, and no value passes both. */
  lemma {:induction false} NonEmptyShapes(v: Json)
    ensures NonEmptyHash(v) <==> v.JObj? && v.fields != map[]
    ensures NonEmptyArray(v) ==> v.JArr? && |v.elems| > 0
    ensures v.JArr? && (exists k :: 0 <= k < |v.elems| && v.elems[k] != JNull && v.elems[k] != JBool(false))
            ==> NonEmptyArray(v)
    ensures !NonEmptyArray(JArr([JNull, JBool(false)]))
    ensures !(NonEmptyHash(v) && NonEmptyArray(v))
  {
    if v.JObj? && v.fields != map[] {
      var key :| key in v.fields;
      assert key in v.fields.Keys;
    }
    var falsy := JArr([JNull, JBool(false)]);
    assert forall k :: 0 <= k < |falsy.elems| ==> !Truthy(falsy.elems[k]);
  }

  function Max(a: nat, b: nat): nat {
    if a < b then b else a
  }

  /** `missing_value[i]`: nil past the end. */
  function At(s: seq<Json>, i: nat): Json {
    if i < |s| then s[i] else JNull
  }

  // ---------------------------------------------------------------------------
  // resolve_changes

  datatype Changes = Changes(extra: Json, missing: Json, different: Json)

  /** `slot || value_at_path(target, name)`: the lookup runs only when the slot
      is missing, nil or false. */
  function OrValueAt(slot: Option<Json>, target: Json, name: string): (r: Outcome<Json>)
    ensures slot.Some? && Truthy(slot.value) ==> r == Ok(slot.value)
    ensures !(slot.Some? && Truthy(slot.value)) ==> r == ValueAt(target, name)
  {
    if slot.Some? && Truthy(slot.value) then Ok(slot.value) else ValueAt(target, name)
  }

  /** resolve_changes: the missing side comes from the '-' entry or else from
      the actual value at the name, the extra side from the '+' entry or else
      from the expected value; the different value is the '~' entry or nil. It
      raises exactly when one of the lookups it needs raises. */
  function ResolveChanges(difference: Group, expectedValue: Json, actualValue: Json, name: string): (r: Outcome<Changes>)
    ensures r.Raised? <==> OrValueAt(difference.removed, actualValue, name).Raised?
                           || OrValueAt(difference.added, expectedValue, name).Raised?
    ensures r.Ok? ==> Ok(r.value.missing) == OrValueAt(difference.removed, actualValue, name)
    ensures r.Ok? ==> Ok(r.value.extra) == OrValueAt(difference.added, expectedValue, name)
    ensures r.Ok? ==> r.value.different == (if difference.changed.Some? then difference.changed.value else JNull)
  {
    match OrValueAt(difference.removed, actualValue, name)
    case Raised => Raised
    case Ok(missing) =>
      match OrValueAt(difference.added, expectedValue, name)
      case Raised => Raised
      case Ok(extra) =>
        Ok(Changes(extra, missing, if difference.changed.Some? then difference.changed.value else JNull))
  }

  // ---------------------------------------------------------------------------
  // The blocks the engine offers to append_to_message

  /** An attribute and the description append_to_message receives for it. */
  datatype Block = Block(attribute: string, text: string)

  /** The blocks a run offers, in order, and whether it raised after them. */
  datatype Trace = Trace(blocks: seq<Block>, raised: bool)

  const Nothing: Trace := Trace([], false)

  /** Runs t, then u unless t raised. */
  function Then(t: Trace, u: Trace): Trace {
    if t.raised then t else Trace(t.blocks + u.blocks, u.raised)
  }

  /** append_diff_to_message: the block for one difference. */
  function DiffBlock(deps: Deps, path: string, expected: Json, actual: Json): Block {
    Block(path, GetDiff(deps, path, expected, actual))
  }

  /** The Hashdiff triples of (actual_value, expected_value), sorted by name
      and grouped: every listed name has its group. */
  function HashdiffGroups(deps: Deps, actualValue: Json, expectedValue: Json): (g: Groups)
    ensures forall m :: m in g.names ==> m in g.byName
  {
    var sorted := SortByName(deps.hashdiff(actualValue, expectedValue));
    GroupedKeys(sorted);
    Grouped(sorted)
  }

  /** add_diff_to_message(actual_value, expected_value, path): groups the
      sorted Hashdiff triples and resolves each group in ascending name order.
      depth bounds the nesting of the recursion; at 0 nothing is offered. */
  function DiffTrace(deps: Deps, actualValue: Json, expectedValue: Json, path: string, depth: nat): Trace
    decreases depth, 0, 0
  {
    if depth == 0 then Nothing
    else
      var groups := HashdiffGroups(deps, actualValue, expectedValue);
      GroupsTrace(deps, actualValue, expectedValue, path, groups.names, groups.byName, 0, depth - 1)
  }

  /** The `diffs_grouped_by_name.each` loop, from the i-th group on. */
  function GroupsTrace(deps: Deps, actualValue: Json, expectedValue: Json, path: string,
                       names: seq<string>, byName: map<string, Group>, i: nat, depth: nat): Trace
    requires forall m :: m in names ==> m in byName
    decreases depth, 4, |names| - i
  {
    if i >= |names| then Nothing
    else
      Then(GroupTrace(deps, path, names[i], byName[names[i]], expectedValue, actualValue, depth),
           GroupsTrace(deps, actualValue, expectedValue, path, names, byName, i + 1, depth))
  }

  /** resolve_and_append_diff_to: resolves the group's sides, then goes on
      with the case they fall in. */
  function GroupTrace(deps: Deps, path: string, name: string, difference: Group,
                      expectedValue: Json, actualValue: Json, depth: nat): Trace
    decreases depth, 3, 0
  {
    match ResolveChanges(difference, expectedValue, actualValue, name)
    case Raised => Trace([], true)
    case Ok(c) => CaseTrace(deps, path, name, difference, expectedValue, c, depth)
  }

  /** The four cases of resolve_and_append_diff_to, in priority order. */
  function CaseTrace(deps: Deps, path: string, name: string, difference: Group,
                     expectedValue: Json, c: Changes, depth: nat): Trace
    decreases depth, 2, 0
  {
    var fullPath := FullPath(path, name);
    if NonEmptyHash(c.missing) && NonEmptyHash(c.extra) then
      DiffTrace(deps, c.missing, c.extra, fullPath, depth)
    else if NonEmptyArray(c.missing) && NonEmptyArray(c.extra) then
      ElementsTrace(deps, c.missing.elems, c.extra.elems, fullPath, 0,
                    Max(|c.missing.elems|, |c.extra.elems|), depth)
    else if difference.changed.Some? then
      match ValueAt(expectedValue, name)
      case Raised => Trace([], true)
      case Ok(value) => Trace([DiffBlock(deps, fullPath, value, c.different)], false)
    else
      Trace([DiffBlock(deps, fullPath, c.extra, c.missing)], false)
  }

  /** The `times` loop of the Array case, from element i on: every element is
      compared under the same full path. */
  function ElementsTrace(deps: Deps, missing: seq<Json>, extra: seq<Json>, fullPath: string,
                         i: nat, n: nat, depth: nat): Trace
    decreases depth, 1, n - i
  {
    if i >= n then Nothing
    else
      Then(DiffTrace(deps, At(missing, i), At(extra, i), fullPath, depth),
           ElementsTrace(deps, missing, extra, fullPath, i + 1, n, depth))
  }

  // ---------------------------------------------------------------------------
  // What append_to_message does with the blocks

  /** The two fields the engine writes: @message and @reported_differences. */
  datatype Output = Output(message: string, reported: map<string, bool>)

  /** append_to_message(attribute, description). */
  function Append(o: Output, b: Block): Output {
    if b.attribute in o.reported then o
    else Output(o.message + b.text, o.reported[b.attribute := true])
  }

  /** The blocks appended one after the other. */
  function Emit(o: Output, bs: seq<Block>): Output {
    EmitFrom(o, bs, 0)
  }

  /** The blocks from the i-th on appended one after the other. */
  function EmitFrom(o: Output, bs: seq<Block>, i: nat): Output
    decreases |bs| - i
  {
    if i >= |bs| then o else EmitFrom(Append(o, bs[i]), bs, i + 1)
  }

  lemma {:induction false} EmitFromSuffix(o: Output, bs: seq<Block>, i: nat)
    requires i <= |bs|
    ensures EmitFrom(o, bs, i) == Emit(o, bs[i..])
    decreases |bs| - i
  {
    if i < |bs| {
      var o' := Append(o, bs[i]);
      EmitFromSuffix(o', bs, i + 1);
      EmitFromSuffix(o', bs[i..], 1);
      assert bs[i..][1..] == bs[i + 1..];
    } else {
      assert bs[i..] == [];
    }
  }

  /** Appending a run is appending its first block, then the others. */
  lemma {:induction false} EmitCons(o: Output, bs: seq<Block>)
    requires bs != []
    ensures Emit(o, bs) == Emit(Append(o, bs[0]), bs[1..])
  {
    EmitFromSuffix(Append(o, bs[0]), bs, 1);
  }

  function Attributes(bs: seq<Block>): set<string> {
    if bs == [] then {} else {bs[0].attribute} + Attributes(bs[1..])
  }

  function Texts(bs: seq<Block>): string {
    if bs == [] then "" else bs[0].text + Texts(bs[1..])
  }

  /** The blocks that survive deduplication: the first block of each attribute
      that is not in seen. */
  function Fresh(seen: set<string>, bs: seq<Block>): seq<Block>
    decreases |bs|
  {
    if bs == [] then []
    else if bs[0].attribute in seen then Fresh(seen, bs[1..])
    else [bs[0]] + Fresh(seen + {bs[0].attribute}, bs[1..])
  }

  ghost predicate DistinctAttributes(bs: seq<Block>) {
    forall i, j :: 0 <= i < j < |bs| ==> bs[i].attribute != bs[j].attribute
  }

  /** Appending two runs is appending their concatenation. */
  lemma {:induction false} EmitConcat(o: Output, xs: seq<Block>, ys: seq<Block>)
    ensures Emit(o, xs + ys) == Emit(Emit(o, xs), ys)
    decreases |xs|
  {
    if xs == [] {
      assert xs + ys == ys;
    } else {
      assert (xs + ys)[0] == xs[0];
      assert (xs + ys)[1..] == xs[1..] + ys;
      EmitCons(o, xs);
      EmitCons(o, xs + ys);
      EmitConcat(Append(o, xs[0]), xs[1..], ys);
    }
  }

  /** @message only grows, by exactly the surviving blocks in order, and every
      attribute offered ends up reported. */
  lemma {:induction false} EmitFresh(o: Output, bs: seq<Block>)
    ensures Emit(o, bs).message == o.message + Texts(Fresh(o.reported.Keys, bs))
    ensures Emit(o, bs).reported.Keys == o.reported.Keys + Attributes(bs)
  {
    EmitMessage(o, bs);
    EmitReported(o, bs);
  }

  lemma {:induction false} EmitMessage(o: Output, bs: seq<Block>)
    ensures Emit(o, bs).message == o.message + Texts(Fresh(o.reported.Keys, bs))
    decreases |bs|
  {
    if bs != [] {
      var o' := Append(o, bs[0]);
      EmitCons(o, bs);
      EmitMessage(o', bs[1..]);
      if bs[0].attribute !in o.reported {
        assert o'.reported.Keys == o.reported.Keys + {bs[0].attribute};
        assert o'.message + Texts(Fresh(o'.reported.Keys, bs[1..]))
            == o.message + (bs[0].text + Texts(Fresh(o'.reported.Keys, bs[1..])));
      }
    }
  }

  lemma {:induction false} EmitReported(o: Output, bs: seq<Block>)
    ensures Emit(o, bs).reported.Keys == o.reported.Keys + Attributes(bs)
    decreases |bs|
  {
    if bs != [] {
      var o' := Append(o, bs[0]);
      EmitCons(o, bs);
      EmitReported(o', bs[1..]);
      assert o'.reported.Keys == o.reported.Keys + {bs[0].attribute};
    }
  }

  /** No attribute survives twice, none that was already reported survives,
      and every other attribute offered keeps one block. */
  lemma {:induction false} FreshFirstOccurrences(seen: set<string>, bs: seq<Block>)
    ensures DistinctAttributes(Fresh(seen, bs))
    ensures Attributes(Fresh(seen, bs)) == Attributes(bs) - seen
    decreases |bs|
  {
    if bs != [] {
      var a := bs[0].attribute;
      if a in seen {
        FreshFirstOccurrences(seen, bs[1..]);
      } else {
        var rest := Fresh(seen + {a}, bs[1..]);
        FreshFirstOccurrences(seen + {a}, bs[1..]);
        AttributesMembers(rest);
        assert Fresh(seen, bs) == [bs[0]] + rest;
        assert Attributes([bs[0]] + rest) == {a} + Attributes(rest) by {
          assert ([bs[0]] + rest)[1..] == rest;
        }
      }
    }
  }

  lemma {:induction false} AttributesMembers(bs: seq<Block>)
    ensures forall k :: 0 <= k < |bs| ==> bs[k].attribute in Attributes(bs)
    decreases |bs|
  {
    if bs != [] {
      AttributesMembers(bs[1..]);
      assert forall k :: 1 <= k < |bs| ==> bs[k] == bs[1..][k - 1];
    }
  }

  /** Blocks whose attributes are all reported change nothing. */
  lemma {:induction false} EmitCovered(o: Output, bs: seq<Block>)
    requires Attributes(bs) <= o.reported.Keys
    ensures Emit(o, bs) == o
    decreases |bs|
  {
    if bs != [] {
      EmitCons(o, bs);
      EmitCovered(o, bs[1..]);
    }
  }

  lemma {:induction false} EmitOne(o: Output, b: Block)
    ensures Emit(o, [b]) == Append(o, b)
  {
    EmitCons(o, [b]);
    assert [b][1..] == [];
  }

  /** Offering the same blocks a second time appends nothing. */
  lemma {:induction false} EmitIdempotent(o: Output, bs: seq<Block>)
    ensures Emit(Emit(o, bs), bs) == Emit(o, bs)
  {
    EmitFresh(o, bs);
    EmitCovered(Emit(o, bs), bs);
  }

  // ---------------------------------------------------------------------------
  // The engine run on the two fields: what the matcher's methods compute

  /** The two fields after a run, and whether the run raised. */
  datatype Run = Run(out: Output, raised: bool)

  /** add_diff_to_message run from the fields o. */
  function DiffRun(deps: Deps, actualValue: Json, expectedValue: Json, path: string, depth: nat, o: Output): Run
    decreases depth, 0, 0
  {
    if depth == 0 then Run(o, false)
    else
      var groups := HashdiffGroups(deps, actualValue, expectedValue);
      GroupsRun(deps, actualValue, expectedValue, path, groups.names, groups.byName, 0, depth - 1, o)
  }

  /** The `diffs_grouped_by_name.each` loop from the i-th group on; a group
      that raises ends the loop. */
  function GroupsRun(deps: Deps, actualValue: Json, expectedValue: Json, path: string,
                     names: seq<string>, byName: map<string, Group>, i: nat, depth: nat, o: Output): Run
    requires forall m :: m in names ==> m in byName
    decreases depth, 4, |names| - i
  {
    if i >= |names| then Run(o, false)
    else
      var r := GroupRun(deps, path, names[i], byName[names[i]], expectedValue, actualValue, depth, o);
      if r.raised then r
      else GroupsRun(deps, actualValue, expectedValue, path, names, byName, i + 1, depth, r.out)
  }

  /** resolve_and_append_diff_to run from the fields o. */
  function GroupRun(deps: Deps, path: string, name: string, difference: Group,
                    expectedValue: Json, actualValue: Json, depth: nat, o: Output): Run
    decreases depth, 3, 0
  {
    match ResolveChanges(difference, expectedValue, actualValue, name)
    case Raised => Run(o, true)
    case Ok(c) => CaseRun(deps, path, name, difference, expectedValue, c, depth, o)
  }

  function CaseRun(deps: Deps, path: string, name: string, difference: Group,
                   expectedValue: Json, c: Changes, depth: nat, o: Output): Run
    decreases depth, 2, 0
  {
    var fullPath := FullPath(path, name);
    if NonEmptyHash(c.missing) && NonEmptyHash(c.extra) then
      DiffRun(deps, c.missing, c.extra, fullPath, depth, o)
    else if NonEmptyArray(c.missing) && NonEmptyArray(c.extra) then
      ElementsRun(deps, c.missing.elems, c.extra.elems, fullPath, 0,
                  Max(|c.missing.elems|, |c.extra.elems|), depth, o)
    else if difference.changed.Some? then
      match ValueAt(expectedValue, name)
      case Raised => Run(o, true)
      case Ok(value) => Run(Append(o, DiffBlock(deps, fullPath, value, c.different)), false)
    else
      Run(Append(o, DiffBlock(deps, fullPath, c.extra, c.missing)), false)
  }

  /** The cases of resolve_and_append_diff_to, one by one. */
  lemma {:induction false} GroupRunCases(deps: Deps, path: string, name: string, difference: Group,
                      expectedValue: Json, actualValue: Json, depth: nat, o: Output)
    ensures var r := ResolveChanges(difference, expectedValue, actualValue, name);
      var run := GroupRun(deps, path, name, difference, expectedValue, actualValue, depth, o);
      var fullPath := FullPath(path, name);
      (r.Raised? ==> run == Run(o, true)) &&
      (r.Ok? && NonEmptyHash(r.value.missing) && NonEmptyHash(r.value.extra) ==>
         run == DiffRun(deps, r.value.missing, r.value.extra, fullPath, depth, o)) &&
      (r.Ok? && !(NonEmptyHash(r.value.missing) && NonEmptyHash(r.value.extra)) &&
       NonEmptyArray(r.value.missing) && NonEmptyArray(r.value.extra) ==>
         run == ElementsRun(deps, r.value.missing.elems, r.value.extra.elems, fullPath, 0,
                            Max(|r.value.missing.elems|, |r.value.extra.elems|), depth, o)) &&
      (r.Ok? && !Descends(r.value) && difference.changed.Some? ==>
         run == match ValueAt(expectedValue, name)
                case Raised => Run(o, true)
                case Ok(value) => Run(Append(o, DiffBlock(deps, fullPath, value, r.value.different)), false)) &&
      (r.Ok? && !Descends(r.value) && difference.changed.None? ==>
         run == Run(Append(o, DiffBlock(deps, fullPath, r.value.extra, r.value.missing)), false))
  {
  }

  /** The `times` loop of the Array case from element i on. */
  function ElementsRun(deps: Deps, missing: seq<Json>, extra: seq<Json>, fullPath: string,
                       i: nat, n: nat, depth: nat, o: Output): Run
    decreases depth, 1, n - i
  {
    if i >= n then Run(o, false)
    else
      var r := DiffRun(deps, At(missing, i), At(extra, i), fullPath, depth, o);
      if r.raised then r
      else ElementsRun(deps, missing, extra, fullPath, i + 1, n, depth, r.out)
  }

  /** The blocks of t appended to o, and whether t raised. */
  function Played(o: Output, t: Trace): Run {
    Run(Emit(o, t.blocks), t.raised)
  }

  lemma {:induction false} PlayedThen(o: Output, t: Trace, u: Trace)
    ensures Played(o, Then(t, u))
         == if t.raised then Played(o, t) else Played(Emit(o, t.blocks), u)
  {
    if !t.raised {
      EmitConcat(o, t.blocks, u.blocks);
    }
  }

  /** Running the engine on the two fields appends, through append_to_message,
      exactly the blocks it offers, and raises exactly when it does. */
  lemma {:induction false} DiffRunPlays(deps: Deps, actualValue: Json, expectedValue: Json, path: string,
                                        depth: nat, o: Output)
    ensures DiffRun(deps, actualValue, expectedValue, path, depth, o)
         == Played(o, DiffTrace(deps, actualValue, expectedValue, path, depth))
    decreases depth, 0, 1
  {
    if depth > 0 {
      GroupedRunPlays(deps, actualValue, expectedValue, path, depth, o);
    }
  }

  lemma {:induction false} GroupedRunPlays(deps: Deps, actualValue: Json, expectedValue: Json, path: string,
                                           depth: nat, o: Output)
    requires depth > 0
    ensures DiffRun(deps, actualValue, expectedValue, path, depth, o)
         == Played(o, DiffTrace(deps, actualValue, expectedValue, path, depth))
    decreases depth, 0, 0
  {
    var groups := HashdiffGroups(deps, actualValue, expectedValue);
    DiffRunGroups(deps, actualValue, expectedValue, path, depth, o);
    DiffTraceGroups(deps, actualValue, expectedValue, path, depth);
    GroupsRunPlays(deps, actualValue, expectedValue, path, groups.names, groups.byName, 0, depth - 1, o);
  }

  lemma {:induction false} DiffRunGroups(deps: Deps, actualValue: Json, expectedValue: Json, path: string, depth: nat, o: Output)
    requires depth > 0
    ensures var groups := HashdiffGroups(deps, actualValue, expectedValue);
      DiffRun(deps, actualValue, expectedValue, path, depth, o)
      == GroupsRun(deps, actualValue, expectedValue, path, groups.names, groups.byName, 0, depth - 1, o)
  {
  }

  lemma {:induction false} DiffTraceGroups(deps: Deps, actualValue: Json, expectedValue: Json, path: string, depth: nat)
    requires depth > 0
    ensures var groups := HashdiffGroups(deps, actualValue, expectedValue);
      DiffTrace(deps, actualValue, expectedValue, path, depth)
      == GroupsTrace(deps, actualValue, expectedValue, path, groups.names, groups.byName, 0, depth - 1)
  {
  }

  lemma {:induction false} GroupsRunPlays(deps: Deps, actualValue: Json, expectedValue: Json, path: string,
                                          names: seq<string>, byName: map<string, Group>, i: nat, depth: nat,
                                          o: Output)
    requires forall m :: m in names ==> m in byName
    ensures GroupsRun(deps, actualValue, expectedValue, path, names, byName, i, depth, o)
         == Played(o, GroupsTrace(deps, actualValue, expectedValue, path, names, byName, i, depth))
    decreases depth, 4, |names| - i
  {
    if i < |names| {
      var g := GroupTrace(deps, path, names[i], byName[names[i]], expectedValue, actualValue, depth);
      var rest := GroupsTrace(deps, actualValue, expectedValue, path, names, byName, i + 1, depth);
      GroupRunPlays(deps, path, names[i], byName[names[i]], expectedValue, actualValue, depth, o);
      PlayedThen(o, g, rest);
      if !g.raised {
        GroupsRunPlays(deps, actualValue, expectedValue, path, names, byName, i + 1, depth, Emit(o, g.blocks));
      }
    }
  }

  lemma {:induction false} GroupRunPlays(deps: Deps, path: string, name: string, difference: Group,
                                         expectedValue: Json, actualValue: Json, depth: nat, o: Output)
    ensures GroupRun(deps, path, name, difference, expectedValue, actualValue, depth, o)
         == Played(o, GroupTrace(deps, path, name, difference, expectedValue, actualValue, depth))
    decreases depth, 3, 0
  {
    match ResolveChanges(difference, expectedValue, actualValue, name)
    case Raised =>
    case Ok(c) => CaseRunPlays(deps, path, name, difference, expectedValue, c, depth, o);
  }

  lemma {:induction false} CaseRunPlays(deps: Deps, path: string, name: string, difference: Group,
                                        expectedValue: Json, c: Changes, depth: nat, o: Output)
    ensures CaseRun(deps, path, name, difference, expectedValue, c, depth, o)
         == Played(o, CaseTrace(deps, path, name, difference, expectedValue, c, depth))
    decreases depth, 2, 0
  {
    var fullPath := FullPath(path, name);
    if NonEmptyHash(c.missing) && NonEmptyHash(c.extra) {
      DiffRunPlays(deps, c.missing, c.extra, fullPath, depth, o);
    } else if NonEmptyArray(c.missing) && NonEmptyArray(c.extra) {
      ElementsRunPlays(deps, c.missing.elems, c.extra.elems, fullPath, 0,
                       Max(|c.missing.elems|, |c.extra.elems|), depth, o);
    } else if difference.changed.Some? {
      match ValueAt(expectedValue, name)
      case Raised =>
      case Ok(value) => EmitOne(o, DiffBlock(deps, fullPath, value, c.different));
    } else {
      EmitOne(o, DiffBlock(deps, fullPath, c.extra, c.missing));
    }
  }

  lemma {:induction false} ElementsRunPlays(deps: Deps, missing: seq<Json>, extra: seq<Json>, fullPath: string,
                                            i: nat, n: nat, depth: nat, o: Output)
    ensures ElementsRun(deps, missing, extra, fullPath, i, n, depth, o)
         == Played(o, ElementsTrace(deps, missing, extra, fullPath, i, n, depth))
    decreases depth, 1, n - i
  {
    if i < n {
      var e := DiffTrace(deps, At(missing, i), At(extra, i), fullPath, depth);
      var rest := ElementsTrace(deps, missing, extra, fullPath, i + 1, n, depth);
      DiffRunPlays(deps, At(missing, i), At(extra, i), fullPath, depth, o);
      PlayedThen(o, e, rest);
      if !e.raised {
        ElementsRunPlays(deps, missing, extra, fullPath, i + 1, n, depth, Emit(o, e.blocks));
      }
    }
  }

  // ---------------------------------------------------------------------------
  // Where the blocks of a run lie

  /** attribute lies strictly under prefix (anything lies under the empty one). */
  predicate Below(prefix: string, attribute: string) {
    prefix == "" || prefix + "." <= attribute
  }

  ghost predicate AllBelow(prefix: string, bs: seq<Block>) {
    forall k :: 0 <= k < |bs| ==> Below(prefix, bs[k].attribute)
  }

  lemma {:induction false} AllBelowThen(prefix: string, t: Trace, u: Trace)
    requires AllBelow(prefix, t.blocks) && AllBelow(prefix, u.blocks)
    ensures AllBelow(prefix, Then(t, u).blocks)
  {
    if !t.raised {
      assert forall k :: |t.blocks| <= k < |t.blocks| + |u.blocks| ==>
        Then(t, u).blocks[k] == u.blocks[k - |t.blocks|];
    }
  }

  /** Being under a full path means being under its prefix. */
  lemma {:induction false} BelowFullPath(path: string, name: string, attribute: string)
    requires path != ""
    requires attribute == FullPath(path, name) || Below(FullPath(path, name), attribute)
    ensures Below(path, attribute)
  {
    var fp := FullPath(path, name);
    assert (path + ".") <= fp;
    if attribute != fp {
      assert (path + ".") <= fp + ".";
    }
  }

  /** Every block of a run at a non-empty prefix lies strictly under it. */
  lemma {:induction false} DiffTraceBelow(deps: Deps, actualValue: Json, expectedValue: Json, path: string, depth: nat)
    ensures AllBelow(path, DiffTrace(deps, actualValue, expectedValue, path, depth).blocks)
    decreases depth, 0, 0
  {
    if depth > 0 {
      var groups := HashdiffGroups(deps, actualValue, expectedValue);
      GroupsTraceBelow(deps, actualValue, expectedValue, path, groups.names, groups.byName, 0, depth - 1);
    }
  }

  lemma {:induction false} GroupsTraceBelow(deps: Deps, actualValue: Json, expectedValue: Json, path: string,
                                            names: seq<string>, byName: map<string, Group>, i: nat, depth: nat)
    requires forall m :: m in names ==> m in byName
    ensures AllBelow(path, GroupsTrace(deps, actualValue, expectedValue, path, names, byName, i, depth).blocks)
    decreases depth, 3, |names| - i
  {
    if i < |names| {
      var g := GroupTrace(deps, path, names[i], byName[names[i]], expectedValue, actualValue, depth);
      GroupTraceWithin(deps, path, names[i], byName[names[i]], expectedValue, actualValue, depth);
      if path != "" {
        forall k | 0 <= k < |g.blocks| ensures Below(path, g.blocks[k].attribute) {
          BelowFullPath(path, names[i], g.blocks[k].attribute);
        }
      }
      GroupsTraceBelow(deps, actualValue, expectedValue, path, names, byName, i + 1, depth);
      AllBelowThen(path, g, GroupsTrace(deps, actualValue, expectedValue, path, names, byName, i + 1, depth));
    }
  }

  /** Every block of a group lies at or under the group's full path. */
  lemma {:induction false} GroupTraceWithin(deps: Deps, path: string, name: string, difference: Group,
                                            expectedValue: Json, actualValue: Json, depth: nat)
    ensures var fp := FullPath(path, name);
      forall b :: b in GroupTrace(deps, path, name, difference, expectedValue, actualValue, depth).blocks ==>
        b.attribute == fp || Below(fp, b.attribute)
    decreases depth, 2, 0
  {
    var fp := FullPath(path, name);
    var r := ResolveChanges(difference, expectedValue, actualValue, name);
    if r.Ok? {
      var c := r.value;
      if NonEmptyHash(c.missing) && NonEmptyHash(c.extra) {
        DiffTraceBelow(deps, c.missing, c.extra, fp, depth);
      } else if NonEmptyArray(c.missing) && NonEmptyArray(c.extra) {
        ElementsTraceBelow(deps, c.missing.elems, c.extra.elems, fp, 0,
                           Max(|c.missing.elems|, |c.extra.elems|), depth);
      }
    }
  }

  lemma {:induction false} ElementsTraceBelow(deps: Deps, missing: seq<Json>, extra: seq<Json>, fullPath: string,
                                              i: nat, n: nat, depth: nat)
    ensures AllBelow(fullPath, ElementsTrace(deps, missing, extra, fullPath, i, n, depth).blocks)
    decreases depth, 1, n - i
  {
    if i < n {
      DiffTraceBelow(deps, At(missing, i), At(extra, i), fullPath, depth);
      ElementsTraceBelow(deps, missing, extra, fullPath, i + 1, n, depth);
      AllBelowThen(fullPath, DiffTrace(deps, At(missing, i), At(extra, i), fullPath, depth),
                   ElementsTrace(deps, missing, extra, fullPath, i + 1, n, depth));
    }
  }

  // ---------------------------------------------------------------------------
  // The four cases of resolve_and_append_diff_to

  /** Whether a group descends: both sides non-empty Hashes, or both Arrays
      with a truthy element. */
  predicate Descends(c: Changes) {
    (NonEmptyHash(c.missing) && NonEmptyHash(c.extra)) ||
    (NonEmptyArray(c.missing) && NonEmptyArray(c.extra))
  }

  /** A group that does not descend (an empty Hash or Array on either side is
      such a case) offers exactly one block, at its full path: the re-resolved
      expected value against the '~' value when there is a '~' entry, else the
      extra side against the missing side; or raises instead. */
  lemma {:induction false} ReportCase(deps: Deps, path: string, name: string, difference: Group,
                   expectedValue: Json, actualValue: Json, depth: nat)
    requires ResolveChanges(difference, expectedValue, actualValue, name).Ok?
    requires !Descends(ResolveChanges(difference, expectedValue, actualValue, name).value)
    ensures var c := ResolveChanges(difference, expectedValue, actualValue, name).value;
      var t := GroupTrace(deps, path, name, difference, expectedValue, actualValue, depth);
      var fp := FullPath(path, name);
      (t.raised <==> difference.changed.Some? && ValueAt(expectedValue, name).Raised?) &&
      (!t.raised ==> |t.blocks| == 1 && t.blocks[0].attribute == fp) &&
      (!t.raised && difference.changed.Some? ==>
         t.blocks[0] == DiffBlock(deps, fp, ValueAt(expectedValue, name).value, difference.changed.value)) &&
      (difference.changed.None? ==> t.blocks[0] == DiffBlock(deps, fp, c.extra, c.missing))
  {
  }

  /** A Hash without entries, or an Array without a truthy element (an empty
      one, or one holding only nil and false), on either side stops the
      descent: the group is reported by one of the other two cases. */
  lemma {:induction false} NoDescentIntoEmpty(v: Json, other: Json, different: Json)
    requires v == JObj(map[]) || (v.JArr? && forall k :: 0 <= k < |v.elems| ==> !Truthy(v.elems[k]))
    ensures !Descends(Changes(v, other, different)) && !Descends(Changes(other, v, different))
  {
    if v.JObj? {
      assert |v.fields| == 0;
    }
  }

  /** A group that descends offers no block at its own full path, only blocks
      strictly under it. */
  lemma {:induction false} DescendCase(deps: Deps, path: string, name: string, difference: Group,
                    expectedValue: Json, actualValue: Json, depth: nat)
    requires ResolveChanges(difference, expectedValue, actualValue, name).Ok?
    requires Descends(ResolveChanges(difference, expectedValue, actualValue, name).value)
    ensures AllBelow(FullPath(path, name),
                     GroupTrace(deps, path, name, difference, expectedValue, actualValue, depth).blocks)
  {
    var c := ResolveChanges(difference, expectedValue, actualValue, name).value;
    var fp := FullPath(path, name);
    if NonEmptyHash(c.missing) && NonEmptyHash(c.extra) {
      DiffTraceBelow(deps, c.missing, c.extra, fp, depth);
    } else {
      ElementsTraceBelow(deps, c.missing.elems, c.extra.elems, fp, 0,
                         Max(|c.missing.elems|, |c.extra.elems|), depth);
    }
  }

  /** When Hashdiff reports no triples, a run offers nothing and does not raise. */
  lemma {:induction false} NoTriplesNothing(deps: Deps, actualValue: Json, expectedValue: Json, path: string, depth: nat)
    requires deps.hashdiff(actualValue, expectedValue) == []
    ensures DiffTrace(deps, actualValue, expectedValue, path, depth) == Nothing
  {
  }

  /** Element pairs each of whose own diffs offers a single block, at one
      attribute a, without raising. */
  ghost predicate SingleBlockElements(deps: Deps, missing: seq<Json>, extra: seq<Json>, fullPath: string,
                                      i: nat, n: nat, depth: nat, a: string) {
    forall k :: i <= k < n ==> OneBlockAt(DiffTrace(deps, At(missing, k), At(extra, k), fullPath, depth), a)
  }

  /** t offers exactly one block, at attribute a, and does not raise. */
  predicate OneBlockAt(t: Trace, a: string) {
    !t.raised && |t.blocks| == 1 && t.blocks[0].attribute == a
  }

  /** The Array case compares every element under the same full path, not
      under an indexed one. So when every element pair offers one block at the
      same attribute, the loop offers one block per element, all at that
      attribute, and deduplication keeps at most one of them. */
  lemma {:induction false} ElementsShareAttribute(deps: Deps, missing: seq<Json>, extra: seq<Json>, fullPath: string,
                                                  i: nat, n: nat, depth: nat, a: string, seen: set<string>)
    requires SingleBlockElements(deps, missing, extra, fullPath, i, n, depth, a)
    ensures var t := ElementsTrace(deps, missing, extra, fullPath, i, n, depth);
      !t.raised && |t.blocks| == (if i < n then n - i else 0) &&
      (forall b :: b in t.blocks ==> b.attribute == a) &&
      |Fresh(seen, t.blocks)| <= 1
  {
    SingleBlockElementsTrace(deps, missing, extra, fullPath, i, n, depth, a);
    SameAttributeFresh(seen, ElementsTrace(deps, missing, extra, fullPath, i, n, depth).blocks, a);
  }

  lemma {:induction false} SingleBlockElementsTrace(deps: Deps, missing: seq<Json>, extra: seq<Json>, fullPath: string,
                                                    i: nat, n: nat, depth: nat, a: string)
    requires SingleBlockElements(deps, missing, extra, fullPath, i, n, depth, a)
    ensures var t := ElementsTrace(deps, missing, extra, fullPath, i, n, depth);
      !t.raised && |t.blocks| == (if i < n then n - i else 0) &&
      (forall b :: b in t.blocks ==> b.attribute == a)
    decreases n - i
  {
    if i < n {
      var head := DiffTrace(deps, At(missing, i), At(extra, i), fullPath, depth);
      var rest := ElementsTrace(deps, missing, extra, fullPath, i + 1, n, depth);
      assert OneBlockAt(head, a);
      SingleBlockElementsTrace(deps, missing, extra, fullPath, i + 1, n, depth, a);
      assert ElementsTrace(deps, missing, extra, fullPath, i, n, depth) == Trace(head.blocks + rest.blocks, false);
    }
  }

  lemma {:induction false} SameAttributeFresh(seen: set<string>, bs: seq<Block>, a: string)
    requires forall b :: b in bs ==> b.attribute == a
    ensures |Fresh(seen, bs)| <= 1
    decreases |bs|
  {
    if bs != [] {
      if a in seen {
        SameAttributeFresh(seen, bs[1..], a);
      } else {
        FreshAllSeen(seen + {a}, bs[1..], a);
      }
    }
  }

  lemma {:induction false} FreshAllSeen(seen: set<string>, bs: seq<Block>, a: string)
    requires a in seen
    requires forall b :: b in bs ==> b.attribute == a
    ensures Fresh(seen, bs) == []
    decreases |bs|
  {
    if bs != [] {
      FreshAllSeen(seen, bs[1..], a);
    }
  }
}
