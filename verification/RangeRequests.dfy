/** Answering a byte-range request from a cached response. */
module RangeRequests {
  import opened Wrappers
  import opened Decimals
  import opened Text

  newtype byte = x: int | 0 <= x < 256

  /** A response: status, the headers as names and values, and the body. */
  datatype Response = Response(status: int, headers: map<string, string>, body: seq<byte>)

  const NOT_SATISFIABLE := Response(416, map[], [])

  function Normalised(header: string): string {
    Lower(Trim(header))
  }

  /** Blanks around a header and the case of its letters make no difference. */
  lemma SpelledAnyway(before: string, s: string, after: string)
    requires forall c :: c in before || c in after ==> c in " \t\n\r"
    requires s != "" ==> s[0] !in " \t\n\r" && s[|s| - 1] !in " \t\n\r"
    ensures Normalised(before + s + after) == Lower(s)
    ensures forall other :: Lower(other) == Lower(s) ==> |other| == |s|
  {
    TrimmedFrom(before, s, after);
  }

  // ---------- the Range header ----------

  /** Where the digits that end at `i` begin. */
  function RunStart(s: string, i: nat): (p: nat)
    requires i <= |s|
    ensures p <= i && AllDigits(s[p..i])
    ensures p > 0 ==> !IsDigit(s[p - 1])
  {
    if i == 0 || !IsDigit(s[i - 1]) then i
    else
      var p := RunStart(s, i - 1);
      assert s[p..i] == s[p..i - 1] + [s[i - 1]];
      p
  }

  /** Where the digits that begin at `i` end. */
  function RunEnd(s: string, i: nat): (q: nat)
    requires i <= |s|
    ensures i <= q <= |s| && AllDigits(s[i..q])
    ensures q < |s| ==> !IsDigit(s[q])
    decreases |s| - i
  {
    if i == |s| || !IsDigit(s[i]) then i
    else
      var q := RunEnd(s, i + 1);
      assert s[i..q] == [s[i]] + s[i + 1..q];
      q
  }

  /** The positions asked for: from, to, or a suffix when there is only `end`. */
  datatype Range = Range(start: Option<nat>, end: Option<nat>)

  function NumberOf(digits: string): Option<nat>
    requires AllDigits(digits)
  {
    if digits == "" then None else Some(Value(digits))
  }

  /** The header, or nothing when it is refused: the unit must be bytes, there must
      be one range, and one of its numbers must be there.  The numbers are the
      digits on either side of the first dash. */
  function ParseRange(header: string): Option<Range> {
    ParseNormalised(Normalised(header))
  }

  function ParseNormalised(s: string): Option<Range> {
    if !("bytes=" <= s) then None
    else if ',' in s then None
    else
      var dash := IndexOf(s, '-', 0);
      if dash == |s| then None
      else
        var first, last := s[RunStart(s, dash)..dash], s[dash + 1..RunEnd(s, dash + 1)];
        if first == "" && last == "" then None else Some(Range(NumberOf(first), NumberOf(last)))
  }

  /** `s[p..q]` matches digits, the dash at `d`, digits. */
  predicate Matches(s: string, p: nat, d: nat, q: nat) {
    p <= d < q <= |s| && AllDigits(s[p..d]) && s[d] == '-' && AllDigits(s[d + 1..q])
  }

  /** The digits around the first dash are what the pattern finds: the leftmost
      match, and the longest one there. */
  lemma FirstDashIsLeftmostMatch(s: string, p: nat, d: nat, q: nat)
    requires Matches(s, p, d, q)
    ensures var dash := IndexOf(s, '-', 0);
            && dash < |s|
            && Matches(s, RunStart(s, dash), dash, RunEnd(s, dash + 1))
            && RunStart(s, dash) <= p
            && (p == RunStart(s, dash) ==> d == dash && q <= RunEnd(s, dash + 1))
  {
    var dash := IndexOf(s, '-', 0);
    var start, end := RunStart(s, dash), RunEnd(s, dash + 1);
    assert forall k :: p <= k < d ==> s[p..d][k - p] == s[k];
    assert forall k :: d < k < q ==> s[d + 1..q][k - (d + 1)] == s[k];
  }

  lemma IndexOfAt(s: string, c: char, from: nat, i: nat)
    requires from <= i < |s| && s[i] == c && c !in s[from..i]
    ensures IndexOf(s, c, from) == i
  {
  }

  lemma NoDashInDigits(s: string)
    requires AllDigits(s)
    ensures '-' !in s && ',' !in s && '/' !in s
  {
  }

  lemma RunStartAfter(s: string, p: nat, i: nat)
    requires 0 < p <= i <= |s| && AllDigits(s[p..i]) && !IsDigit(s[p - 1])
    ensures RunStart(s, i) == p
  {
    var r := RunStart(s, i);
    assert forall k :: p <= k < i ==> s[p..i][k - p] == s[k];
    assert forall k :: r <= k < i ==> s[r..i][k - r] == s[k];
  }

  lemma RunEndAt(s: string, i: nat, q: nat)
    requires i <= q <= |s| && AllDigits(s[i..q]) && (q < |s| ==> !IsDigit(s[q]))
    ensures RunEnd(s, i) == q
  {
    var r := RunEnd(s, i);
    assert forall k :: i <= k < q ==> s[i..q][k - i] == s[k];
    assert forall k :: i <= k < r ==> s[i..r][k - i] == s[k];
  }

  /** A header with one range: the first dash is at `dash`, and the digits around it
      reach from `start` to `end`. */
  predicate IsLaidOut(s: string, start: nat, dash: nat, end: nat) {
    && "bytes=" <= s && ',' !in s
    && 6 <= start && end > start + 1
    && Matches(s, start, dash, end)
    && '-' !in s[..dash]
    && !IsDigit(s[start - 1])
    && (end < |s| ==> !IsDigit(s[end]))
  }

  /** Its numbers are read, whatever text there is before and after them: the pattern
      is not anchored. */
  lemma ParsesAround(s: string, start: nat, dash: nat, end: nat)
    requires IsLaidOut(s, start, dash, end)
    ensures ParseNormalised(s) == Some(Range(NumberOf(s[start..dash]), NumberOf(s[dash + 1..end])))
  {
    assert s[0..dash] == s[..dash];
    IndexOfAt(s, '-', 0, dash);
    RunStartAfter(s, start, dash);
    RunEndAt(s, dash + 1, end);
  }

  lemma LaidOutPlainly(first: string, last: string)
    requires AllDigits(first) && AllDigits(last) && (first != "" || last != "")
    ensures var s, dash := "bytes=" + first + "-" + last, 6 + |first|;
            IsLaidOut(s, 6, dash, |s|) && s[6..dash] == first && s[dash + 1..|s|] == last
  {
    var s, dash := "bytes=" + first + "-" + last, 6 + |first|;
    NoDashInDigits(first);
    NoDashInDigits(last);
    assert s[6..dash] == first && s[dash + 1..|s|] == last;
    assert s[..dash] == "bytes=" + first;
    assert s[5] == "bytes="[5];
  }

  /** A header that comes down to `bytes=<digits>-<digits>`, in any case and with
      any blanks around it, is read as those two numbers. */
  lemma ParsesNumbers(header: string, first: string, last: string)
    requires AllDigits(first) && AllDigits(last) && (first != "" || last != "")
    requires Normalised(header) == "bytes=" + first + "-" + last
    ensures ParseRange(header) == Some(Range(NumberOf(first), NumberOf(last)))
  {
    LaidOutPlainly(first, last);
    var s := Normalised(header);
    ParsesAround(s, 6, 6 + |first|, |s|);
  }

  /** A header is refused when the unit is not bytes, when there are commas, when there
      is no dash, or when no digit stands next to the first dash. */
  lemma RefusedExactly(s: string)
    ensures ParseNormalised(s).None?
            <==> || !("bytes=" <= s)
                 || ',' in s
                 || '-' !in s
                 || forall d :: 0 <= d < |s| && s[d] == '-' && '-' !in s[..d] ==>
                      (d == 0 || s[d - 1] !in "0123456789") && (d == |s| - 1 || s[d + 1] !in "0123456789")
  {
    assert forall c :: c in "0123456789" <==> IsDigit(c);
    var dash := IndexOf(s, '-', 0);
    if dash < |s| {
      assert '-' !in s[..dash];
      assert RunStart(s, dash) < dash <==> dash > 0 && IsDigit(s[dash - 1]);
      assert RunEnd(s, dash + 1) > dash + 1 <==> dash + 1 < |s| && IsDigit(s[dash + 1]);
      forall d | 0 <= d < |s| && s[d] == '-' && '-' !in s[..d] ensures d == dash {
        assert s[0..d] == s[..d];
        IndexOfAt(s, '-', 0, d);
      }
    }
  }

  // ---------- the response ----------

  /** The half-open bounds of the slice, or nothing when the end lies beyond the
      size.  An end of zero is falsy and passes that test. */
  function Bounds(size: nat, range: Range): Option<(int, int)> {
    if range.end.Some? && range.end.value != 0 && range.end.value > size then None
    else
      match (range.start, range.end)
      case (Some(s), Some(e)) => Some((s, e + 1))
      case (Some(s), None) => Some((s, size))
      case (None, Some(n)) => Some((size - n, size))
      case (None, None) => None
  }

  /** `Blob.slice`: a negative position counts from the end, and positions are
      clamped to the size. */
  function Clamp(size: nat, i: int): (c: nat)
    ensures c <= size
  {
    if i < 0 then (if size + i < 0 then 0 else size + i) else if i > size then size else i
  }

  function Slice(body: seq<byte>, start: int, end: int): seq<byte> {
    var a, b := Clamp(|body|, start), Clamp(|body|, end);
    if a <= b then body[a..b] else []
  }

  function ContentRange(start: int, last: int, size: nat): string {
    "bytes " + PrintInt(start) + "-" + PrintInt(last) + "/" + Print(size)
  }

  /** The answer to a range: the slice, its length and its positions, or 416. */
  function Serve(range: Range, cached: Response): Response {
    var bounds := Bounds(|cached.body|, range);
    if bounds.None? then NOT_SATISFIABLE
    else
      var (start, end) := bounds.value;
      var part := Slice(cached.body, start, end);
      var headers := cached.headers["Content-Length" := Print(|part|)];
      Response(206, headers["Content-Range" := ContentRange(start, end - 1, |cached.body|)], part)
  }

  /** The answer to a request with this Range header, from a cached response. */
  function Respond(rangeHeader: Option<string>, cached: Response): Response {
    if cached.status == 206 then cached
    else if rangeHeader.None? || rangeHeader.value == "" then NOT_SATISFIABLE
    else
      match ParseRange(rangeHeader.value)
      case None => NOT_SATISFIABLE
      case Some(range) => Serve(range, cached)
  }

  /** The whole answer to a range.  It is refused when the last number exceeds the size.
      Otherwise it is status 206, the bytes from the first position to the last as far
      as there are any, and the headers of the cached response with the length and the
      positions put in. */
  lemma ServeExactly(range: Range, cached: Response)
    requires range.start.Some? || range.end.Some?
    ensures var size := |cached.body|;
            var r := Serve(range, cached);
            if range.end.Some? && range.end.value > size then r == Response(416, map[], [])
            else
              var first: nat := if range.start.Some? then range.start.value else size - range.end.value;
              var last: int := if range.start.Some? && range.end.Some? then range.end.value else size - 1;
              && r.status == 206
              && r.body == (if last < first || first >= size then []
                            else if last < size then cached.body[first..last + 1] else cached.body[first..])
              && r.headers == cached.headers["Content-Length" := Print(|r.body|)]["Content-Range" :=
                   "bytes " + Print(first) + "-" + (if last < 0 then "-1" else Print(last)) + "/" + Print(size)]
  {
    hide Print, PrintInt;
    LastPrinted(if range.start.Some? && range.end.Some? then range.end.value else |cached.body| - 1);
    PrintedNat(if range.start.Some? then range.start.value else 0);
    if range.start.None? && range.end.value <= |cached.body| {
      PrintedNat(|cached.body| - range.end.value);
    }
  }

  lemma PrintedNat(n: nat)
    ensures PrintInt(n) == Print(n)
  {
  }

  lemma LastPrinted(last: int)
    requires last >= -1
    ensures PrintInt(last) == if last < 0 then "-1" else Print(last)
  {
    assert Print(1) == "1" && "-" + "1" == "-1";
  }

  /** A cached part is returned as it is, and a request whose Range header is missing or
      refused gets 416. */
  lemma RespondExactly(rangeHeader: Option<string>, cached: Response)
    ensures cached.status == 206 ==> Respond(rangeHeader, cached) == cached
    ensures cached.status != 206 && (rangeHeader.None? || ParseRange(rangeHeader.value).None?) ==>
              Respond(rangeHeader, cached) == Response(416, map[], [])
    ensures cached.status != 206 && rangeHeader.Some? && ParseRange(rangeHeader.value).Some? ==>
              Respond(rangeHeader, cached) == Serve(ParseRange(rangeHeader.value).value, cached)
  {
  }

  // ---------- reading the answer back ----------

  /** The numbers of a Content-Range header of the form `bytes A-B/C`. */
  function ReadContentRange(s: string): Option<(nat, nat, nat)> {
    if !("bytes " <= s) then None
    else
      var dash := IndexOf(s, '-', 6);
      if dash == |s| then None
      else
        var slash := IndexOf(s, '/', dash + 1);
        if slash == |s| then None
        else ThreeNumbers(s[6..dash], s[dash + 1..slash], s[slash + 1..])
  }

  function ThreeNumbers(a: string, b: string, c: string): Option<(nat, nat, nat)> {
    if AllDigits(a) && AllDigits(b) && AllDigits(c) && a != "" && b != "" && c != ""
    then Some((Value(a), Value(b), Value(c))) else None
  }

  lemma ReadsLayout(s: string, a: string, b: string, c: string)
    requires AllDigits(a) && AllDigits(b)
    requires |s| == 8 + |a| + |b| + |c|
    requires "bytes " <= s && s[6..6 + |a|] == a && s[6 + |a|] == '-'
    requires s[7 + |a|..7 + |a| + |b|] == b && s[7 + |a| + |b|] == '/' && s[8 + |a| + |b|..] == c
    ensures ReadContentRange(s) == ThreeNumbers(a, b, c)
  {
    hide ThreeNumbers, AllDigits, IndexOf;
    assert '-' !in a && '/' !in b by {
      NoDashInDigits(a);
      NoDashInDigits(b);
    }
    IndexOfAt(s, '-', 6, 6 + |a|);
    IndexOfAt(s, '/', 7 + |a|, 7 + |a| + |b|);
  }

  lemma Layout(a: string, b: string, c: string)
    ensures var s := "bytes " + a + "-" + b + "/" + c;
            && |s| == 8 + |a| + |b| + |c|
            && "bytes " <= s && s[6..6 + |a|] == a && s[6 + |a|] == '-'
            && s[7 + |a|..7 + |a| + |b|] == b && s[7 + |a| + |b|] == '/' && s[8 + |a| + |b|..] == c
  {
  }

  /** A printed Content-Range reads back as the positions it was printed from. */
  lemma ContentRangeReadsBack(first: nat, last: nat, size: nat)
    ensures ReadContentRange(ContentRange(first, last, size)) == Some((first, last, size))
  {
    hide Print, ReadContentRange;
    var a, b, c := Print(first), Print(last), Print(size);
    Layout(a, b, c);
    ReadsLayout("bytes " + a + "-" + b + "/" + c, a, b, c);
    ValueOfPrinted(first);
    ValueOfPrinted(last);
    ValueOfPrinted(size);
  }

  /** A partial answer carries the slice between its bounds, its length, and a
      Content-Range that reads back as those bounds. */
  lemma PartialAnswer(range: Range, cached: Response, start: nat, end: nat)
    requires Bounds(|cached.body|, range) == Some((start, end)) && end >= 1
    ensures var r := Serve(range, cached);
            && r.status == 206
            && r.body == Slice(cached.body, start, end)
            && "Content-Length" in r.headers && r.headers["Content-Length"] == Print(|r.body|)
            && "Content-Range" in r.headers
            && ReadContentRange(r.headers["Content-Range"]) == Some((start, end - 1, |cached.body|))
  {
    hide ReadContentRange, ContentRange, Print;
    ContentRangeReadsBack(start, end - 1, |cached.body|);
  }

  /** A last position equal to the size is accepted, and announced although the
      body has no such byte. */
  lemma AnnouncesByteBeyondEnd(start: nat, cached: Response)
    requires start < |cached.body|
    ensures var size := |cached.body|;
            var r := Serve(Range(Some(start), Some(size)), cached);
            && r.status == 206 && r.body == cached.body[start..]
            && "Content-Range" in r.headers && ReadContentRange(r.headers["Content-Range"]) == Some((start, size, size))
  {
    hide ReadContentRange, ContentRange, Print;
    PartialAnswer(Range(Some(start), Some(|cached.body|)), cached, start, |cached.body| + 1);
  }
}
