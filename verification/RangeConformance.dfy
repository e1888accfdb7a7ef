/** Range responses held against RFC 7233: the grammar of section 2.1, what it asks
    of the answer, and which headers get that answer. */
module RangeConformance {
  import opened Wrappers
  import opened Decimals
  import opened Text
  import opened RangeRequests

  // ---------- what the RFC asks ----------

  /** One byte-range-spec: digits, a dash, digits, not both left out. */
  function ReadSpec(spec: string): Option<Range> {
    var dash := IndexOf(spec, '-', 0);
    if dash == |spec| then None
    else
      var first, last := spec[..dash], spec[dash + 1..];
      if AllDigits(first) && AllDigits(last) && (first != "" || last != "")
      then Some(Range(NumberOf(first), NumberOf(last)))
      else None
  }

  /** The parts of a list, between its commas. */
  function Split(s: string): (parts: seq<string>)
    ensures |parts| > 0
    decreases |s|
  {
    var comma := IndexOf(s, ',', 0);
    if comma == |s| then [s] else [s[..comma]] + Split(s[comma + 1..])
  }

  /** The specs of a list; parts that are blank do not count. */
  function ReadSpecs(parts: seq<string>): Option<seq<Range>> {
    if parts == [] then Some([])
    else
      var rest := ReadSpecs(parts[1..]);
      var part := Trim(parts[0]);
      if rest.None? || part == "" then rest
      else
        var spec := ReadSpec(part);
        if spec.None? then None else Some([spec.value] + rest.value)
  }

  /** The byte ranges of a header that follows the grammar of section 2.1: the unit,
      then a list of at least one spec, which may not begin with a blank. */
  function ReadRangeSet(s: string): (ranges: Option<seq<Range>>)
    ensures ranges.Some? ==> |ranges.value| > 0
  {
    if !("bytes=" <= s) || (|s| > 6 && IsSpace(s[6])) then None
    else
      var ranges := ReadSpecs(Split(s[6..]));
      if ranges.Some? && ranges.value == [] then None else ranges
  }

  /** What may be answered.  A unit that is not understood leaves the whole response
      only; invalid ranges and ranges past the end are refused with status 416; one
      range is one part; several are sent with status 206, or refused when there are
      too many. */
  datatype Verdict =
    | Ignored
    | Invalid
    | Unsatisfiable
    | Part(first: nat, last: nat)
    | Parts
    | TooMany

  /** What sections 2.1, 3.1 and 4.4 of RFC 7233 make of a range over `size` bytes: a
      last position before the first is invalid; a range that starts beyond the end, or
      an empty suffix, cannot be satisfied; and positions beyond the end mean the end. */
  function Rfc(range: Range, size: nat): Verdict {
    match (range.start, range.end)
    case (Some(s), Some(e)) =>
      if e < s then Invalid
      else if s >= size then Unsatisfiable
      else Part(s, if e < size then e else size - 1)
    case (Some(s), None) => if s >= size then Unsatisfiable else Part(s, size - 1)
    case (None, Some(n)) =>
      if n == 0 || size == 0 then Unsatisfiable
      else Part(if n <= size then size - n else 0, size - 1)
    case (None, None) => Invalid
  }

  /** The range asks for byte `b`. */
  predicate AsksFor(range: Range, size: nat, b: nat) {
    var v := Rfc(range, size);
    v.Part? && v.first <= b <= v.last
  }

  /** More than two ranges overlap: they ask for the same byte. */
  predicate MoreThanTwoOverlap(ranges: seq<Range>, size: nat) {
    exists i, j, k, b | 0 <= i < j < k < |ranges| && 0 <= b < size ::
      AsksFor(ranges[i], size, b) && AsksFor(ranges[j], size, b) && AsksFor(ranges[k], size, b)
  }

  function RfcOfSet(ranges: seq<Range>, size: nat): Verdict
    requires |ranges| > 0
  {
    if exists r :: r in ranges && Rfc(r, size).Invalid? then Invalid
    else if |ranges| == 1 then Rfc(ranges[0], size)
    else if forall r :: r in ranges ==> Rfc(r, size).Unsatisfiable? then Unsatisfiable
    else if MoreThanTwoOverlap(ranges, size) then TooMany
    else Parts
  }

  /** What the RFC makes of the text of a header. */
  function RfcOfHeader(header: string, size: nat): Verdict {
    var s := Normalised(header);
    if !("bytes=" <= s) then Ignored
    else
      match ReadRangeSet(s)
      case None => Invalid
      case Some(ranges) => RfcOfSet(ranges, size)
  }

  /** The response is one the RFC has for the verdict.  A Range header may always be
      ignored, and the whole response sent; one part is status 206, exactly its bytes,
      their number as Content-Length, and its positions as Content-Range. */
  ghost predicate Conforms(r: Response, verdict: Verdict, cached: Response) {
    || r == cached
    || match verdict
       case Ignored => false
       case Invalid => r.status == 416
       case Unsatisfiable => r.status == 416
       case Part(first, last) =>
         && r.status == 206
         && first <= last < |cached.body|
         && r.body == cached.body[first..last + 1]
         && "Content-Length" in r.headers && r.headers["Content-Length"] == Print(last + 1 - first)
         && "Content-Range" in r.headers
         && ReadContentRange(r.headers["Content-Range"]) == Some((first, last, |cached.body|))
       case Parts => r.status == 206
       case TooMany => r.status == 206 || r.status == 416
  }

  // ---------- ranges that were understood ----------

  /** The ranges that are answered as the RFC asks.  The code refuses a range when its
      last number exceeds the size, and no other. */
  predicate WellAnswered(range: Range, size: nat) {
    match (range.start, range.end)
    case (Some(s), Some(e)) => if e < s || s >= size then e > size else e < size
    case (Some(s), None) => s < size
    case (None, Some(n)) => 0 < n && (n <= size || size == 0)
    case (None, None) => true
  }

  lemma WellAnsweredConforms(range: Range, cached: Response)
    requires WellAnswered(range, |cached.body|)
    ensures Conforms(Serve(range, cached), Rfc(range, |cached.body|), cached)
  {
    hide ReadContentRange, ContentRange, Print;
    var bounds := Bounds(|cached.body|, range);
    if bounds.Some? {
      PartialAnswer(range, cached, bounds.value.0, bounds.value.1);
    }
  }

  lemma OthersDoNotConform(range: Range, cached: Response)
    requires cached.status != 206 && cached != NOT_SATISFIABLE
    requires !WellAnswered(range, |cached.body|)
    ensures !Conforms(Serve(range, cached), Rfc(range, |cached.body|), cached)
  {
    hide ReadContentRange, ContentRange, Print;
    var bounds := Bounds(|cached.body|, range);
    if range.start.Some? && range.end.Some? && bounds.Some? {
      PartialAnswer(range, cached, bounds.value.0, bounds.value.1);
    }
  }

  /** A range is answered as RFC 7233 asks exactly when it is well answered: a last
      position at or past the end, an empty or overlong suffix, a start past the end,
      and reversed positions up to the size are not. */
  lemma ConformsExactly(range: Range, cached: Response)
    requires cached.status != 206 && cached != NOT_SATISFIABLE
    ensures Conforms(Serve(range, cached), Rfc(range, |cached.body|), cached) <==> WellAnswered(range, |cached.body|)
  {
    if WellAnswered(range, |cached.body|) {
      WellAnsweredConforms(range, cached);
    } else {
      OthersDoNotConform(range, cached);
    }
  }

  lemma UnderstoodHeader(header: string)
    requires ParseRange(header).Some?
    ensures header != ""
    ensures ParseRange(header).value.start.Some? || ParseRange(header).value.end.Some?
  {
  }

  lemma ServesWell(header: string, range: Range, cached: Response)
    requires ParseRange(header) == Some(range) && WellAnswered(range, |cached.body|)
    requires cached.status != 206
    ensures Conforms(Respond(Some(header), cached), Rfc(range, |cached.body|), cached)
  {
    UnderstoodHeader(header);
    hide Serve, Conforms, Rfc, WellAnswered, ParseRange;
    WellAnsweredConforms(range, cached);
  }

  // ---------- all headers ----------

  /** A range the RFC finds well formed and beyond the end. */
  predicate PastTheEnd(range: Range, size: nat) {
    match (range.start, range.end)
    case (Some(s), Some(e)) => s <= e && s >= size
    case (Some(s), None) => s >= size
    case (None, Some(n)) => n == 0 || size == 0
    case (None, None) => false
  }

  predicate Reversed(range: Range) {
    range.start.Some? && range.end.Some? && range.end.value < range.start.value
  }

  /** A text the code refuses: there is no range in it, or its last number exceeds the
      size. */
  predicate IsRefused(s: string, size: nat) {
    var range := ParseNormalised(s);
    range.None? || (range.value.end.Some? && range.value.end.value > size)
  }

  /** A list the RFC lets be refused: one range is reversed, all are past the end, or
      more than two overlap. */
  predicate MayRefuse(ranges: seq<Range>, size: nat) {
    || (exists r :: r in ranges && Reversed(r))
    || (forall r :: r in ranges ==> PastTheEnd(r, size))
    || MoreThanTwoOverlap(ranges, size)
  }

  /** The headers that are answered as the RFC asks, all of the unit bytes: what does
      not follow the grammar is refused, one range is well answered, and a list, which
      the code always refuses, is one that may be. */
  predicate HeaderWellAnswered(header: string, size: nat) {
    var s := Normalised(header);
    && "bytes=" <= s
    && match ReadRangeSet(s)
       case None => IsRefused(s, size)
       case Some(ranges) => if ',' in s then MayRefuse(ranges, size) else WellAnswered(ranges[0], size)
  }

  lemma NormalisedEnds(header: string)
    ensures var s := Normalised(header); s != "" ==> !IsSpace(s[|s| - 1])
  {
    TrimEndEnds(TrimStart(header));
  }

  /** Without commas there is one spec, the text after the unit. */
  lemma OneSpec(s: string)
    requires "bytes=" <= s && |s| > 6 && !IsSpace(s[6]) && !IsSpace(s[|s| - 1]) && ',' !in s
    ensures ReadRangeSet(s) == match ReadSpec(s[6..]) case None => None case Some(range) => Some([range])
  {
    var rest := s[6..];
    assert forall k :: 0 <= k < |rest| ==> rest[k] == s[k + 6];
    TrimKeeps(rest);
    assert Split(rest) == [rest];
    assert ReadSpecs([rest][1..]) == Some([]);
    var none: seq<Range> := [];
    assert forall range: Range :: [range] + none == [range];
  }

  lemma UnitAlone()
    ensures ReadRangeSet("bytes=") == None
  {
    assert "bytes="[6..] == "" && Split("") == [""];
    assert [""][1..] == [] && Trim("") == "";
  }

  /** A single range that follows the grammar is read as the RFC reads it. */
  lemma SingleIsUnderstood(s: string)
    requires ReadRangeSet(s).Some? && ',' !in s && !IsSpace(s[|s| - 1])
    ensures ReadRangeSet(s) == Some([ReadRangeSet(s).value[0]])
    ensures ParseNormalised(s) == Some(ReadRangeSet(s).value[0])
    ensures ReadRangeSet(s).value[0].start.Some? || ReadRangeSet(s).value[0].end.Some?
  {
    var rest := s[6..];
    if |s| == 6 {
      assert s == "bytes=";
      UnitAlone();
      assert false;
    }
    OneSpec(s);
    var dash := 6 + IndexOf(rest, '-', 0);
    assert s[6..dash] == rest[..dash - 6] && s[dash + 1..|s|] == rest[dash - 5..];
    assert s[5] == "bytes="[5];
    forall k | 0 <= k < dash ensures s[k] != '-' {
      assert if k < 6 then s[k] == "bytes="[k] else s[k] == rest[k - 6];
    }
    ParsesAround(s, 6, dash, |s|);
  }

  lemma RefusalConformsExactly(ranges: seq<Range>, size: nat)
    requires |ranges| > 0 && forall r :: r in ranges ==> r.start.Some? || r.end.Some?
    ensures var v := RfcOfSet(ranges, size);
            v.Invalid? || v.Unsatisfiable? || v.TooMany? <==> MayRefuse(ranges, size)
  {
    assert forall r :: PastTheEnd(r, size) <==> Rfc(r, size).Unsatisfiable?;
    assert forall r: Range :: r.start.Some? || r.end.Some? ==> (Reversed(r) <==> Rfc(r, size).Invalid?);
    assert ranges[0] in ranges;
    if |ranges| == 1 {
      assert forall r :: r in ranges ==> r == ranges[0];
    }
  }

  lemma SpecsHaveNumbers(parts: seq<string>)
    ensures ReadSpecs(parts).Some? ==>
              forall r :: r in ReadSpecs(parts).value ==> r.start.Some? || r.end.Some?
  {
  }

  lemma RefusedConforms(s: string, cached: Response)
    requires cached.status != 206 && cached != NOT_SATISFIABLE
    ensures var r := match ParseNormalised(s) case None => NOT_SATISFIABLE case Some(range) => Serve(range, cached);
            Conforms(r, Invalid, cached) <==> IsRefused(s, |cached.body|)
  {
    hide ContentRange, Print, ReadContentRange;
    if ParseNormalised(s).Some? {
      var range := ParseNormalised(s).value;
      assert range.start.Some? || range.end.Some?;
      hide ParseNormalised;
    }
  }

  /** Every header there can be, understood or refused, is answered as RFC 7233 asks
      exactly when its unit is bytes and it is refused where it breaks the grammar, holds
      one well answered range, or is a list that may be refused. */
  lemma RequestConformsExactly(header: string, cached: Response)
    requires cached.status != 206 && cached != NOT_SATISFIABLE
    ensures Conforms(Respond(Some(header), cached), RfcOfHeader(header, |cached.body|), cached)
            <==> HeaderWellAnswered(header, |cached.body|)
  {
    hide WellAnswered, Rfc, Serve, RfcOfSet, MayRefuse, IsRefused;
    var s := Normalised(header);
    var ranges := ReadRangeSet(s);
    NormalisedEnds(header);
    if "bytes=" <= s {
      assert header != "";
      if ranges.None? {
        RefusedConforms(s, cached);
      } else if ',' in s {
        SpecsHaveNumbers(Split(s[6..]));
        RefusalConformsExactly(ranges.value, |cached.body|);
      } else {
        SingleIsUnderstood(s);
        OneRange(ranges.value, |cached.body|);
        ConformsExactly(ranges.value[0], cached);
      }
    }
  }

  lemma OneRange(ranges: seq<Range>, size: nat)
    requires |ranges| == 1
    ensures RfcOfSet(ranges, size) == Rfc(ranges[0], size)
  {
    assert forall r :: r in ranges ==> r == ranges[0];
  }

  /** Text before or after the numbers makes a header invalid. */
  lemma StrayTextIsInvalid(s: string, start: nat, dash: nat, end: nat)
    requires IsLaidOut(s, start, dash, end) && (start > 6 || end < |s|) && !IsSpace(s[|s| - 1])
    ensures ReadRangeSet(s) == None
  {
    if !IsSpace(s[6]) {
      OneSpec(s);
      hide ReadRangeSet;
      var rest := s[6..];
      assert rest[..dash - 6] == s[6..dash] && rest[dash - 5..] == s[dash + 1..];
      assert forall k :: 6 <= k < dash ==> s[k] == s[..dash][k];
      IndexOfAt(rest, '-', 0, dash - 6);
      if start > 6 {
        assert rest[..dash - 6][start - 7] == s[start - 1];
      } else {
        assert rest[dash - 5..][end - dash - 1] == s[end];
      }
    }
  }

  /** Such a header may be ignored or refused; the pattern passes over the text, so it
      is read, and answered as asked only when its last number exceeds the size. */
  lemma StrayTextIsRead(header: string, start: nat, dash: nat, end: nat, cached: Response)
    requires IsLaidOut(Normalised(header), start, dash, end)
    requires start > 6 || end < |Normalised(header)|
    requires cached.status != 206 && cached != NOT_SATISFIABLE
    ensures ParseRange(header).Some?
    ensures RfcOfHeader(header, |cached.body|) == Invalid
    ensures var last := Normalised(header)[dash + 1..end];
            Conforms(Respond(Some(header), cached), RfcOfHeader(header, |cached.body|), cached)
            <==> last != "" && Value(last) > |cached.body|
  {
    hide MayRefuse, WellAnswered, Rfc, Serve, ReadRangeSet, ParseNormalised, Conforms, Respond, Normalised;
    var s := Normalised(header);
    ParsesAround(s, start, dash, end);
    NormalisedEnds(header);
    StrayTextIsInvalid(s, start, dash, end);
    RequestConformsExactly(header, cached);
  }

  /** One such header: it is answered with status 206 and a part. */
  lemma StrayLetterIsRead(cached: Response)
    requires cached.status != 206 && cached != NOT_SATISFIABLE && |cached.body| > 1
    ensures Respond(Some("bytes=x0-1"), cached).status == 206
    ensures !Conforms(Respond(Some("bytes=x0-1"), cached), RfcOfHeader("bytes=x0-1", |cached.body|), cached)
  {
    var s := "bytes=x0-1";
    TrimKeeps(s);
    assert Normalised(s) == s;
    assert Value("0") == 0 && Value("1") == 1;
    assert s[7..8] == "0" && s[9..10] == "1" && s[..8] == "bytes=x0";
    assert IsLaidOut(s, 7, 8, 10);
    hide Normalised, ReadRangeSet, ParseNormalised, IsLaidOut, Conforms;
    StrayTextIsRead(s, 7, 8, 10, cached);
    ParsesAround(s, 7, 8, 10);
  }

  /** Reversed positions within the body: the header is invalid, and the answer is an
      empty part instead of a refusal. */
  lemma ReversedIsServed(start: nat, end: nat, cached: Response)
    requires end < start && end < |cached.body|
    requires cached.status != 206 && cached != NOT_SATISFIABLE
    ensures var range := Range(Some(start), Some(end));
            && Serve(range, cached).status == 206 && Serve(range, cached).body == []
            && !Conforms(Serve(range, cached), Rfc(range, |cached.body|), cached)
  {
    ConformsExactly(Range(Some(start), Some(end)), cached);
  }

  /** `bytes=s-e` inside the body: exactly bytes `s` to `e`, whatever the spelling
      of the header. */
  lemma ServesFromTo(header: string, first: string, last: string, cached: Response)
    requires AllDigits(first) && AllDigits(last) && first != "" && last != ""
    requires Normalised(header) == "bytes=" + first + "-" + last
    requires cached.status != 206 && Value(first) <= Value(last) < |cached.body|
    ensures Conforms(Respond(Some(header), cached), Part(Value(first), Value(last)), cached)
  {
    hide Normalised, Serve, Conforms, ParseRange;
    ParsesNumbers(header, first, last);
    ServesWell(header, Range(NumberOf(first), NumberOf(last)), cached);
  }

  /** `bytes=s-` with `s` inside the body: everything from byte `s`. */
  lemma ServesFrom(header: string, first: string, cached: Response)
    requires AllDigits(first) && first != ""
    requires Normalised(header) == "bytes=" + first + "-"
    requires cached.status != 206 && Value(first) < |cached.body|
    ensures Conforms(Respond(Some(header), cached), Part(Value(first), |cached.body| - 1), cached)
  {
    hide Normalised, Serve, Conforms, ParseRange;
    assert "bytes=" + first + "-" == "bytes=" + first + "-" + "";
    ParsesNumbers(header, first, "");
    ServesWell(header, Range(NumberOf(first), None), cached);
  }

  /** `bytes=-n` with `n` from one to the size: the last `n` bytes. */
  lemma ServesLast(header: string, count: string, cached: Response)
    requires AllDigits(count) && count != ""
    requires Normalised(header) == "bytes=-" + count
    requires cached.status != 206 && 0 < Value(count) <= |cached.body|
    ensures Conforms(Respond(Some(header), cached), Part(|cached.body| - Value(count), |cached.body| - 1), cached)
  {
    hide Normalised, Serve, Conforms, ParseRange;
    assert "bytes=-" + count == "bytes=" + "" + "-" + count;
    ParsesNumbers(header, "", count);
    ServesWell(header, Range(None, NumberOf(count)), cached);
  }
}
