/** The first step of add_diff_to_message: the flat triples Hashdiff returns are
    sorted by path (sort_by { |a| a[1] }) and gathered into one group per path
    with a slot per operator (each_with_object), a later triple overwriting an
    earlier one with the same operator. */
module Grouping {
  import opened Json

  /** Hashdiff's operators: '+' (only in the expected value), '-' (only in the
      actual value) and '~' (changed). */
  datatype Op = Added | Removed | Changed

  /** A Hashdiff triple as `operator, name, value = diff` destructures it: for a
      '~' entry the value kept is the third element, the actual-side one. */
  datatype Triple = Triple(op: Op, name: string, value: Json)

  // ---------------------------------------------------------------------------
  // Ordering of names (String#<=>: character by character, a prefix first)

  predicate NameLeq(a: string, b: string)
    decreases |a|
  {
    a == [] || (b != [] && (a[0] < b[0] || (a[0] == b[0] && NameLeq(a[1..], b[1..]))))
  }

  lemma {:induction false} NameLeqReflexive(a: string)
    ensures NameLeq(a, a)
    decreases |a|
  {
    if a != [] {
      NameLeqReflexive(a[1..]);
    }
  }

  lemma {:induction false} NameLeqTotal(a: string, b: string)
    ensures NameLeq(a, b) || NameLeq(b, a)
    decreases |a|
  {
    if a != [] && b != [] && a[0] == b[0] {
      NameLeqTotal(a[1..], b[1..]);
    }
  }

  lemma {:induction false} NameLeqTransitive(a: string, b: string, c: string)
    requires NameLeq(a, b) && NameLeq(b, c)
    ensures NameLeq(a, c)
    decreases |a|
  {
    if a != [] && a[0] == b[0] && b[0] == c[0] {
      NameLeqTransitive(a[1..], b[1..], c[1..]);
    }
  }

  lemma {:induction false} NameLeqAntisymmetric(a: string, b: string)
    requires NameLeq(a, b) && NameLeq(b, a)
    ensures a == b
    decreases |a|
  {
    if a != [] {
      NameLeqAntisymmetric(a[1..], b[1..]);
      assert a == [a[0]] + a[1..] && b == [b[0]] + b[1..];
    }
  }

  // ---------------------------------------------------------------------------
  // sort_by { |a| a[1] }

  ghost predicate SortedByName(ts: seq<Triple>) {
    forall i, j :: 0 <= i < j < |ts| ==> NameLeq(ts[i].name, ts[j].name)
  }

  /** Puts t before the first triple whose name is not smaller than its own. */
  function InsertByName(t: Triple, ts: seq<Triple>): (r: seq<Triple>)
    ensures |r| == |ts| + 1
  {
    if ts == [] || NameLeq(t.name, ts[0].name) then [t] + ts
    else [ts[0]] + InsertByName(t, ts[1..])
  }

  /** Inserting adds t and keeps every other triple. */
  lemma {:induction false} InsertPermutes(t: Triple, ts: seq<Triple>)
    ensures multiset(InsertByName(t, ts)) == multiset(ts) + multiset{t}
  {
    if ts != [] && !NameLeq(t.name, ts[0].name) {
      InsertPermutes(t, ts[1..]);
      assert ts == [ts[0]] + ts[1..];
    }
  }

  lemma {:induction false} InsertSorted(t: Triple, ts: seq<Triple>)
    requires SortedByName(ts)
    ensures SortedByName(InsertByName(t, ts))
  {
    if ts == [] {
    } else if NameLeq(t.name, ts[0].name) {
      forall j | 0 <= j < |ts|
        ensures NameLeq(t.name, ts[j].name)
      {
        if j > 0 {
          NameLeqTransitive(t.name, ts[0].name, ts[j].name);
        }
      }
    } else {
      NameLeqTotal(t.name, ts[0].name);
      InsertSorted(t, ts[1..]);
      InsertPermutes(t, ts[1..]);
      var rest := InsertByName(t, ts[1..]);
      forall j | 0 <= j < |rest|
        ensures NameLeq(ts[0].name, rest[j].name)
      {
        assert rest[j] in multiset(rest);
        if rest[j] != t {
          assert rest[j] in multiset(ts[1..]);
          var k :| 1 <= k < |ts| && ts[k] == rest[j] by {
            var k' :| 0 <= k' < |ts[1..]| && ts[1..][k'] == rest[j];
            assert ts[k' + 1] == rest[j];
          }
        }
      }
    }
  }

  /** A stable sort of the triples by name (SortSorted, SortPermutes, SortStable). */
  function SortByName(ts: seq<Triple>): (r: seq<Triple>)
    ensures |r| == |ts|
  {
    if ts == [] then [] else InsertByName(ts[0], SortByName(ts[1..]))
  }

  /** The sort returns the triples in ascending order of name. */
  lemma {:induction false} SortSorted(ts: seq<Triple>)
    ensures SortedByName(SortByName(ts))
  {
    if ts != [] {
      SortSorted(ts[1..]);
      InsertSorted(ts[0], SortByName(ts[1..]));
    }
  }

  /** The sort returns the same triples. */
  lemma {:induction false} SortPermutes(ts: seq<Triple>)
    ensures multiset(SortByName(ts)) == multiset(ts)
  {
    if ts != [] {
      SortPermutes(ts[1..]);
      InsertPermutes(ts[0], SortByName(ts[1..]));
      MultisetCons(ts);
    }
  }

  lemma MultisetCons(ts: seq<Triple>)
    requires ts != []
    ensures multiset(ts) == multiset(ts[1..]) + multiset{ts[0]}
  {
    assert ts == [ts[0]] + ts[1..];
  }

  /** The triples with name n, in order. */
  function Named(ts: seq<Triple>, n: string): seq<Triple> {
    if ts == [] then [] else (if ts[0].name == n then [ts[0]] else []) + Named(ts[1..], n)
  }

  lemma {:induction false} InsertNamed(t: Triple, ts: seq<Triple>, n: string)
    ensures Named(InsertByName(t, ts), n) == if t.name == n then [t] + Named(ts, n) else Named(ts, n)
  {
    if ts == [] || NameLeq(t.name, ts[0].name) {
      assert ([t] + ts)[1..] == ts;
    } else {
      NameLeqReflexive(t.name);
      InsertNamed(t, ts[1..], n);
      assert ([ts[0]] + InsertByName(t, ts[1..]))[1..] == InsertByName(t, ts[1..]);
    }
  }

  /** The sort is stable: the triples of each name keep Hashdiff's order. */
  lemma {:induction false} SortStable(ts: seq<Triple>, n: string)
    ensures Named(SortByName(ts), n) == Named(ts, n)
  {
    if ts != [] {
      SortStable(ts[1..], n);
      InsertNamed(ts[0], SortByName(ts[1..]), n);
    }
  }

  // ---------------------------------------------------------------------------
  // each_with_object: one group per name, one slot per operator

  /** `memo[name]`: the '+', '-' and '~' entries of one path. */
  datatype Group = Group(added: Option<Json>, removed: Option<Json>, changed: Option<Json>)

  /** `memo[name] ||= {}` */
  const NoEntries: Group := Group(None, None, None)

  function Slot(g: Group, op: Op): Option<Json> {
    match op
    case Added => g.added
    case Removed => g.removed
    case Changed => g.changed
  }

  /** `memo[name][operator] = value`: sets one slot and keeps the other two. */
  function SetSlot(g: Group, op: Op, v: Json): (r: Group)
    ensures Slot(r, op) == Some(v)
    ensures forall o :: o != op ==> Slot(r, o) == Slot(g, o)
  {
    match op
    case Added => g.(added := Some(v))
    case Removed => g.(removed := Some(v))
    case Changed => g.(changed := Some(v))
  }

  /** The Hash being built: its keys in insertion order, and their groups. */
  datatype Groups = Groups(names: seq<string>, byName: map<string, Group>)

  /** Every listed name has a group and every group is listed. */
  ghost predicate Listed(g: Groups) {
    forall n :: n in g.names <==> n in g.byName
  }

  /** No name is listed twice. */
  ghost predicate DistinctNames(g: Groups) {
    forall i, j :: 0 <= i < j < |g.names| ==> g.names[i] != g.names[j]
  }

  ghost predicate HasName(ts: seq<Triple>, n: string) {
    exists k :: 0 <= k < |ts| && ts[k].name == n
  }

  /** One iteration of the each_with_object block. */
  function AddTriple(g: Groups, t: Triple): Groups {
    var g1 := if t.name in g.byName then g else Groups(g.names + [t.name], g.byName[t.name := NoEntries]);
    Groups(g1.names, g1.byName[t.name := SetSlot(g1.byName[t.name], t.op, t.value)])
  }

  /** The Hash each_with_object has built after the given triples (GroupedKeys:
      one key per name; GroupedDistinct: no key twice). */
  function Grouped(ts: seq<Triple>): (g: Groups)
    ensures |g.names| <= |ts|
  {
    if ts == [] then Groups([], map[]) else AddTriple(Grouped(ts[..|ts| - 1]), ts[|ts| - 1])
  }

  /** Every listed name has a group, and the groups are exactly the names of
      the triples. */
  lemma {:induction false} GroupedKeys(ts: seq<Triple>)
    ensures Listed(Grouped(ts))
    ensures forall n :: n in Grouped(ts).byName <==> HasName(ts, n)
  {
    if ts != [] {
      var pre := ts[..|ts| - 1];
      GroupedKeys(pre);
      forall n | HasName(pre, n) ensures HasName(ts, n) {
        var k :| 0 <= k < |pre| && pre[k].name == n;
        assert ts[k].name == n;
      }
      assert forall n :: HasName(ts, n) ==> HasName(pre, n) || n == ts[|ts| - 1].name;
    }
  }

  /** each_with_object, as the loop it is: builds `memo` in place. */
  method GroupByName(sorted: seq<Triple>) returns (memo: Groups)
    ensures memo == Grouped(sorted)
  {
    memo := Groups([], map[]);
    for i := 0 to |sorted|
      invariant memo == Grouped(sorted[..i])
    {
      var t := sorted[i];
      if t.name !in memo.byName {
        memo := Groups(memo.names + [t.name], memo.byName[t.name := NoEntries]);
      }
      memo := memo.(byName := memo.byName[t.name := SetSlot(memo.byName[t.name], t.op, t.value)]);
      assert sorted[..i + 1][..i] == sorted[..i];
    }
    assert sorted[..|sorted|] == sorted;
  }

  /** The value of the last triple with name n and operator op, if any. */
  function LastValue(ts: seq<Triple>, n: string, op: Op): Option<Json> {
    if ts == [] then None
    else if ts[|ts| - 1].name == n && ts[|ts| - 1].op == op then Some(ts[|ts| - 1].value)
    else LastValue(ts[..|ts| - 1], n, op)
  }

  lemma {:induction false} LastValueAbsent(ts: seq<Triple>, n: string, op: Op)
    requires !HasName(ts, n)
    ensures LastValue(ts, n, op) == None
  {
    if ts != [] {
      var pre := ts[..|ts| - 1];
      assert forall k :: 0 <= k < |pre| ==> pre[k] == ts[k];
      LastValueAbsent(pre, n, op);
    }
  }

  /** Last write wins per operator, and the operators of one name coexist: the
      slot for op in the group of n holds the last op-triple of name n. */
  lemma {:induction false} GroupedSlots(ts: seq<Triple>, n: string, op: Op)
    requires n in Grouped(ts).byName
    ensures Slot(Grouped(ts).byName[n], op) == LastValue(ts, n, op)
  {
    var pre := ts[..|ts| - 1];
    var t := ts[|ts| - 1];
    var prev := Grouped(pre);
    GroupedKeys(pre);
    if n in prev.byName {
      GroupedSlots(pre, n, op);
    } else if n == t.name {
      LastValueAbsent(pre, n, op);
    }
  }

  /** A name is listed once: a key is added only when it is not yet present. */
  lemma {:induction false} GroupedDistinct(ts: seq<Triple>)
    ensures DistinctNames(Grouped(ts))
  {
    if ts != [] {
      var pre := ts[..|ts| - 1];
      var t := ts[|ts| - 1];
      var prev := Grouped(pre);
      GroupedKeys(pre);
      GroupedDistinct(pre);
      if t.name !in prev.byName {
        assert t.name !in prev.names;
      }
    }
  }

  /** Groups are listed in ascending order of name when the triples are sorted. */
  lemma {:induction false} GroupedAscending(ts: seq<Triple>)
    requires SortedByName(ts)
    ensures forall i, j :: 0 <= i < j < |Grouped(ts).names| ==>
              NameLeq(Grouped(ts).names[i], Grouped(ts).names[j])
  {
    if ts != [] {
      var pre := ts[..|ts| - 1];
      var t := ts[|ts| - 1];
      var prev := Grouped(pre);
      GroupedKeys(pre);
      GroupedAscending(pre);
      if t.name !in prev.byName {
        forall i | 0 <= i < |prev.names|
          ensures NameLeq(prev.names[i], t.name)
        {
          assert prev.names[i] in prev.byName;
          var k :| 0 <= k < |pre| && pre[k].name == prev.names[i];
          assert ts[k] == pre[k];
        }
      }
    }
  }

  lemma {:induction false} NamedSnoc(ts: seq<Triple>, t: Triple, n: string)
    ensures Named(ts + [t], n) == Named(ts, n) + (if t.name == n then [t] else [])
  {
    if ts != [] {
      assert (ts + [t])[1..] == ts[1..] + [t];
      NamedSnoc(ts[1..], t, n);
    } else {
      assert [] + [t] == [t];
    }
  }

  /** The last value of a name depends only on that name's triples. */
  lemma {:induction false} LastValueNamed(ts: seq<Triple>, n: string, op: Op)
    ensures LastValue(ts, n, op) == LastValue(Named(ts, n), n, op)
  {
    if ts != [] {
      var pre := ts[..|ts| - 1];
      var t := ts[|ts| - 1];
      assert ts == pre + [t];
      NamedSnoc(pre, t, n);
      LastValueNamed(pre, n, op);
      if t.name == n {
        assert (Named(pre, n) + [t])[..|Named(pre, n)|] == Named(pre, n);
      } else {
        assert Named(pre, n) + [] == Named(pre, n);
      }
    }
  }

  lemma {:induction false} HasNameMultiset(xs: seq<Triple>, ys: seq<Triple>, n: string)
    requires multiset(xs) == multiset(ys)
    ensures HasName(xs, n) <==> HasName(ys, n)
  {
    if HasName(xs, n) {
      var k :| 0 <= k < |xs| && xs[k].name == n;
      assert xs[k] in multiset(ys);
    }
    if HasName(ys, n) {
      var k :| 0 <= k < |ys| && ys[k].name == n;
      assert ys[k] in multiset(xs);
    }
  }

  /** What grouping the sorted triples yields: the names of the triples, each
      once, in ascending order; and in each name's group, for each operator,
      the value of the last such triple Hashdiff returned. */
  lemma {:induction false} SortedGroups(ts: seq<Triple>)
    ensures var g := Grouped(SortByName(ts));
      Listed(g) && DistinctNames(g) &&
      (forall n :: n in g.byName <==> HasName(ts, n)) &&
      (forall i, j :: 0 <= i < j < |g.names| ==> NameLeq(g.names[i], g.names[j])) &&
      (forall n, op :: n in g.byName ==> Slot(g.byName[n], op) == LastValue(ts, n, op))
  {
    var s := SortByName(ts);
    var g := Grouped(s);
    SortSorted(ts);
    SortPermutes(ts);
    GroupedKeys(s);
    GroupedDistinct(s);
    forall n ensures HasName(s, n) <==> HasName(ts, n) {
      HasNameMultiset(s, ts, n);
    }
    GroupedAscending(s);
    forall n, op | n in g.byName
      ensures Slot(g.byName[n], op) == LastValue(ts, n, op)
    {
      GroupedSlots(s, n, op);
      LastValueNamed(s, n, op);
      LastValueNamed(ts, n, op);
      SortStable(ts, n);
    }
  }
}
