/** The path resolver (value_at_path): splits a dotted/bracketed path such as
    "a[1].b" into segments, tells integer indices from string keys with the
    to_i rule, and walks a value segment by segment with Ruby's [] operator. */
module ValuePath {
  import opened Json
  import opened RubyText

  predicate IsDelimiter(c: char) {
    c == '.' || c == '[' || c == ']'
  }

  predicate NoDelimiter(s: string) {
    forall k :: 0 <= k < |s| ==> !IsDelimiter(s[k])
  }

  /** The pieces of s between delimiters, empty ones included: "a[1]" gives
      ["a", "1", ""]. */
  function Pieces(s: string): (r: seq<string>)
    ensures |r| >= 1
  {
    if s == [] then [""]
    else
      var rest := Pieces(s[1..]);
      if IsDelimiter(s[0]) then [""] + rest else [[s[0]] + rest[0]] + rest[1..]
  }

  function DropTrailingEmpty(ps: seq<string>): (r: seq<string>)
    ensures |r| <= |ps|
  {
    if ps != [] && ps[|ps| - 1] == "" then DropTrailingEmpty(ps[..|ps| - 1]) else ps
  }

  /** What split drops: a prefix of the pieces remains, it does not end with an
      empty string, and every piece dropped is empty. */
  lemma {:induction false} DropTrailingEmptyPrefix(ps: seq<string>)
    ensures var r := DropTrailingEmpty(ps);
      r == ps[..|r|] && (r == [] || r[|r| - 1] != "") && forall k :: |r| <= k < |ps| ==> ps[k] == ""
    decreases |ps|
  {
    if ps != [] && ps[|ps| - 1] == "" {
      var pre := ps[..|ps| - 1];
      DropTrailingEmptyPrefix(pre);
      var r := DropTrailingEmpty(pre);
      assert ps[..|r|] == pre[..|r|];
    } else {
      assert ps[..|ps|] == ps;
    }
  }

  /** String#split(/[\[\].]/): the pieces, with trailing empty strings removed. */
  function Split(path: string): seq<string> {
    DropTrailingEmpty(Pieces(path))
  }

  /** A path segment after the to_i rule. */
  datatype Segment = Key(name: string) | Index(position: int)

  /** A piece becomes an integer index exactly when its to_i is nonzero or it is
      the literal "0"; otherwise it stays a string key, unchanged. */
  function ParseSegment(piece: string): (seg: Segment)
    ensures seg.Index? <==> (ToI(piece) != 0 || piece == "0")
    ensures seg.Key? ==> seg.name == piece
    ensures seg.Index? ==> seg.position == ToI(piece)
  {
    if ToI(piece) == 0 && piece != "0" then Key(piece) else Index(ToI(piece))
  }

  function ParseAll(ps: seq<string>): (r: seq<Segment>)
    ensures |r| == |ps|
  {
    if ps == [] then [] else [ParseSegment(ps[0])] + ParseAll(ps[1..])
  }

  /** Each piece is parsed on its own. */
  lemma {:induction false} ParseAllPieces(ps: seq<string>)
    ensures forall k :: 0 <= k < |ps| ==> ParseAll(ps)[k] == ParseSegment(ps[k])
  {
    if ps != [] {
      ParseAllPieces(ps[1..]);
    }
  }

  /** The keys value_at_path walks for a path. */
  function Segments(path: string): seq<Segment> {
    ParseAll(Split(path))
  }

  /** Ruby's index normalisation for Array#[] and String#[]: a negative index
      counts from the end; None when it falls outside. */
  function RubyIndex(i: int, len: nat): (r: Option<nat>)
    ensures r.Some? ==> r.value < len
    ensures 0 <= i < len ==> r == Some(i)
  {
    var j := if i < 0 then i + len else i;
    if 0 <= j < len then Some(j) else None
  }

  function Pow2(i: nat): (r: nat)
    ensures r >= 1
  {
    if i == 0 then 1 else 2 * Pow2(i - 1)
  }

  /** Integer#[]: bit i of n in two's complement; 0 below bit 0. */
  function Bit(n: int, i: int): int {
    if i < 0 then 0 else (n / Pow2(i)) % 2
  }

  /** Whether k occurs in s as a substring. */
  predicate Contains(s: string, k: string) {
    k <= s || (s != [] && Contains(s[1..], k))
  }

  /** One step `result[key]`. A Hash has String keys only, so an integer index
      finds nothing in it; an Array refuses a String key (TypeError); nil and
      booleans have no [] at all (NoMethodError). */
  function Descend(v: Json, seg: Segment): Outcome<Json> {
    match v
    case JObj(fields) =>
      Ok(if seg.Key? && seg.name in fields then fields[seg.name] else JNull)
    case JArr(elems) =>
      if seg.Key? then Raised
      else (match RubyIndex(seg.position, |elems|)
            case Some(j) => Ok(elems[j])
            case None => Ok(JNull))
    case JStr(s) =>
      (match seg
       case Index(i) =>
         (match RubyIndex(i, |s|)
          case Some(j) => Ok(JStr([s[j]]))
          case None => Ok(JNull))
       case Key(k) => Ok(if Contains(s, k) then JStr(k) else JNull))
    case JInt(n) =>
      if seg.Index? then Ok(JInt(Bit(n, seg.position))) else Raised
    case _ => Raised
  }

  /** Walks the segments in order, skipping empty string keys. */
  function Navigate(v: Json, segs: seq<Segment>): Outcome<Json>
    decreases |segs|
  {
    if segs == [] then Ok(v)
    else if segs[0] == Key("") then Navigate(v, segs[1..])
    else
      match Descend(v, segs[0])
      case Raised => Raised
      case Ok(w) => Navigate(w, segs[1..])
  }

  /** Continues a walk that may already have raised. */
  function Continue(o: Outcome<Json>, segs: seq<Segment>): Outcome<Json> {
    match o
    case Raised => Raised
    case Ok(w) => Navigate(w, segs)
  }

  /** The value value_at_path returns for target and path. */
  function ValueAt(target: Json, path: string): Outcome<Json> {
    Navigate(target, Segments(path))
  }

  /** One unfolding of Navigate. */
  lemma {:induction false} NavigateStep(v: Json, segs: seq<Segment>)
    requires segs != []
    ensures Navigate(v, segs) ==
      if segs[0] == Key("") then Navigate(v, segs[1..]) else Continue(Descend(v, segs[0]), segs[1..])
  {
  }

  /** value_at_path: the loop that reassigns `result` key by key. */
  method ValueAtPath(target: Json, attributePath: string) returns (r: Outcome<Json>)
    ensures r == ValueAt(target, attributePath)
  {
    var keys := Segments(attributePath);
    var result := target;
    var i := 0;
    while i < |keys|
      invariant 0 <= i <= |keys|
      invariant ValueAt(target, attributePath) == Navigate(result, keys[i..])
    {
      NavigateStep(result, keys[i..]);
      assert keys[i..][1..] == keys[i + 1..];
      if keys[i] != Key("") {
        var step := Descend(result, keys[i]);
        if step.Raised? {
          return Raised;
        }
        result := step.value;
      }
      i := i + 1;
    }
    return Ok(result);
  }

  // ---------------------------------------------------------------------------
  // Splitting

  /** A string without delimiters is a single piece. */
  lemma {:induction false} PiecesOfPlain(s: string)
    requires NoDelimiter(s)
    ensures Pieces(s) == [s]
  {
    if s != [] {
      PiecesOfPlain(s[1..]);
      assert [s[0]] + s[1..] == s;
    }
  }

  /** A delimiter separates the pieces on its left from those on its right. */
  lemma {:induction false} PiecesAround(a: string, c: char, b: string)
    requires IsDelimiter(c)
    ensures Pieces(a + [c] + b) == Pieces(a) + Pieces(b)
  {
    if a == [] {
      assert a + [c] + b == [c] + b;
      assert ([c] + b)[1..] == b;
    } else {
      assert (a + [c] + b)[1..] == a[1..] + [c] + b;
      PiecesAround(a[1..], c, b);
    }
  }

  /** A string made only of delimiters splits into empty pieces only. */
  lemma {:induction false} PiecesOfDelimiters(s: string)
    requires forall k :: 0 <= k < |s| ==> IsDelimiter(s[k])
    ensures forall k :: 0 <= k < |Pieces(s)| ==> Pieces(s)[k] == ""
  {
    if s != [] {
      PiecesOfDelimiters(s[1..]);
    }
  }

  // ---------------------------------------------------------------------------
  // Segments

  /** Integer#to_s of an index parses back as that index, "0" included. */
  lemma {:induction false} IndexSegmentRoundTrip(n: nat)
    ensures ParseSegment(NatToString(n)) == Index(n)
  {
    NatToStringToI(n);
  }

  /** The empty piece is the empty key, which the walk skips. */
  lemma {:induction false} EmptyPieceIsEmptyKey()
    ensures ParseSegment("") == Key("")
  {
    assert SkipSpace("") == "";
    assert DigitRun("") == "";
  }

  /** A string that merely starts with "0" stays a key: "0abc".to_i is 0. */
  lemma {:induction false} LeadingZeroWordIsKey()
    ensures ParseSegment("0abc") == Key("0abc")
  {
    assert SkipSpace("0abc") == "0abc";
    assert DigitRun("abc") == "";
    assert DigitRun("0abc") == "0";
    assert DecimalValue("0") == 0;
  }

  /** A numeral with a leading zero other than "0" itself stays a key. */
  lemma {:induction false} DoubleZeroIsKey()
    ensures ParseSegment("00") == Key("00")
  {
    assert SkipSpace("00") == "00";
    assert DigitRun("0") == "0";
    assert DigitRun("00") == "00";
    assert DecimalValue("00") == 0 by {
      assert "00"[..1] == "0";
      assert DecimalValue("0") == 0;
    }
  }

  /** A string that starts with a nonzero number is an index: "12abc" is 12. */
  lemma {:induction false} NumberPrefixIsIndex()
    ensures ParseSegment("12abc") == Index(12)
  {
    assert SkipSpace("12abc") == "12abc";
    assert DigitRun("abc") == "";
    assert DigitRun("2abc") == "2";
    assert DigitRun("12abc") == "12";
    assert DecimalValue("12") == 12 by {
      assert "12"[..1] == "1";
      assert DecimalValue("1") == 1;
    }
  }

  // ---------------------------------------------------------------------------
  // Navigation

  lemma {:induction false} ParseAllConcat(xs: seq<string>, ys: seq<string>)
    ensures ParseAll(xs + ys) == ParseAll(xs) + ParseAll(ys)
  {
    ParseAllPieces(xs + ys);
    ParseAllPieces(xs);
    ParseAllPieces(ys);
    assert forall k :: 0 <= k < |xs + ys| ==> ParseAll(xs + ys)[k] == (ParseAll(xs) + ParseAll(ys))[k];
  }

  /** Walking a concatenation is walking the first part, then the second. */
  lemma {:induction false} NavigateConcat(v: Json, xs: seq<Segment>, ys: seq<Segment>)
    ensures Navigate(v, xs + ys) == Continue(Navigate(v, xs), ys)
    decreases |xs|
  {
    if xs == [] {
      assert xs + ys == ys;
    } else {
      assert (xs + ys)[0] == xs[0];
      assert (xs + ys)[1..] == xs[1..] + ys;
      NavigateStep(v, xs);
      NavigateStep(v, xs + ys);
      if xs[0] == Key("") {
        NavigateConcat(v, xs[1..], ys);
      } else if Descend(v, xs[0]).Ok? {
        NavigateConcat(Descend(v, xs[0]).value, xs[1..], ys);
      }
    }
  }

  /** Empty keys are skipped: a walk over empty keys only returns its start. */
  lemma {:induction false} NavigateEmptyKeys(v: Json, segs: seq<Segment>)
    requires forall k :: 0 <= k < |segs| ==> segs[k] == Key("")
    ensures Navigate(v, segs) == Ok(v)
  {
    if segs != [] {
      NavigateEmptyKeys(v, segs[1..]);
    }
  }

  /** A walk over empty pieces returns its start. */
  lemma {:induction false} EmptyPiecesWalk(v: Json, ps: seq<string>)
    requires forall k :: 0 <= k < |ps| ==> ps[k] == ""
    ensures Navigate(v, ParseAll(ps)) == Ok(v)
  {
    EmptyPieceIsEmptyKey();
    ParseAllPieces(ps);
    NavigateEmptyKeys(v, ParseAll(ps));
  }

  /** The trailing empty strings split drops make no difference to the walk. */
  lemma {:induction false} ValueAtPieces(v: Json, path: string)
    ensures ValueAt(v, path) == Navigate(v, ParseAll(Pieces(path)))
  {
    var ps := Pieces(path);
    var kept := Split(path);
    DropTrailingEmptyPrefix(ps);
    var tail := ps[|kept|..];
    assert ps == kept + tail;
    ParseAllConcat(kept, tail);
    NavigateConcat(v, ParseAll(kept), ParseAll(tail));
    if Navigate(v, ParseAll(kept)).Ok? {
      EmptyPiecesWalk(Navigate(v, ParseAll(kept)).value, tail);
    }
  }

  /** A path made only of delimiters, or the empty path, returns the target
      unchanged. */
  lemma {:induction false} DelimitersOnly(v: Json, path: string)
    requires forall k :: 0 <= k < |path| ==> IsDelimiter(path[k])
    ensures ValueAt(v, path) == Ok(v)
  {
    ValueAtPieces(v, path);
    PiecesOfDelimiters(path);
    EmptyPiecesWalk(v, Pieces(path));
  }

  /** Resolving `p` + delimiter + `q` resolves p, then q inside the result:
      value_at_path walks the tree segment by segment. */
  lemma {:induction false} ValueAtJoined(v: Json, p: string, c: char, q: string)
    requires IsDelimiter(c)
    ensures ValueAt(v, p + [c] + q) == Continue(ValueAt(v, p), Segments(q))
  {
    ValueAtPieces(v, p + [c] + q);
    PiecesAround(p, c, q);
    ParseAllConcat(Pieces(p), Pieces(q));
    NavigateConcat(v, ParseAll(Pieces(p)), ParseAll(Pieces(q)));
    ValueAtPieces(v, p);
    if Navigate(v, ParseAll(Pieces(p))).Ok? {
      ValueAtPieces(Navigate(v, ParseAll(Pieces(p))).value, q);
    }
  }

  /** A plain key (no delimiter, not empty, not read as an index) looks up that
      key of a Hash, and gives nil when the Hash lacks it. */
  lemma {:induction false} KeyPath(fields: map<string, Json>, k: string)
    requires k != "" && NoDelimiter(k) && ParseSegment(k) == Key(k)
    ensures ValueAt(JObj(fields), k) == Ok(if k in fields then fields[k] else JNull)
  {
    PiecesOfPlain(k);
    ValueAtPieces(JObj(fields), k);
  }

  lemma {:induction false} PiecesOfBracketed(d: string)
    requires NoDelimiter(d)
    ensures Pieces("[" + d + "]") == ["", d, ""]
  {
    assert "[" + d + "]" == [] + ['['] + (d + [']'] + []);
    PiecesAround([], '[', d + [']'] + []);
    PiecesAround(d, ']', []);
    PiecesOfPlain(d);
  }

  lemma {:induction false} DigitsHaveNoDelimiter(d: string)
    requires AllDigits(d)
    ensures NoDelimiter(d)
  {
  }

  lemma {:induction false} WalkIndex(elems: seq<Json>, i: nat)
    requires i < |elems|
    ensures Navigate(JArr(elems), [Key(""), Index(i), Key("")]) == Ok(elems[i])
  {
    var segs := [Key(""), Index(i), Key("")];
    NavigateStep(JArr(elems), segs);
    assert segs[1..] == [Index(i), Key("")];
    NavigateStep(JArr(elems), segs[1..]);
    assert segs[2..] == [Key("")];
    NavigateStep(elems[i], segs[2..]);
  }

  lemma {:induction false} BracketedIndex(elems: seq<Json>, d: string, i: nat)
    requires NoDelimiter(d) && ParseSegment(d) == Index(i) && i < |elems|
    ensures ValueAt(JArr(elems), "[" + d + "]") == Ok(elems[i])
  {
    PiecesOfBracketed(d);
    ValueAtPieces(JArr(elems), "[" + d + "]");
    EmptyPieceIsEmptyKey();
    ParseAllPieces(["", d, ""]);
    assert ParseAll(["", d, ""]) == [Key(""), Index(i), Key("")];
    WalkIndex(elems, i);
  }

  /** "[i]" picks element i of an Array. */
  lemma {:induction false} IndexPath(elems: seq<Json>, i: nat)
    requires i < |elems|
    ensures ValueAt(JArr(elems), "[" + NatToString(i) + "]") == Ok(elems[i])
  {
    DigitsHaveNoDelimiter(NatToString(i));
    IndexSegmentRoundTrip(i);
    BracketedIndex(elems, NatToString(i), i);
  }

  /** A Hash key that is a decimal numeral cannot be reached: the segment
      becomes an integer and a String-keyed Hash has no integer keys. */
  lemma {:induction false} NumeralKeyUnreachable(fields: map<string, Json>, n: nat)
    ensures ValueAt(JObj(fields), NatToString(n)) == Ok(JNull)
  {
    var d := NatToString(n);
    DigitsHaveNoDelimiter(d);
    PiecesOfPlain(d);
    IndexSegmentRoundTrip(n);
    ValueAtPieces(JObj(fields), d);
  }
}
