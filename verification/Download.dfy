/**
 * Downloading one byte range of an original through the bridge, reconnecting upstream where a transfer stops short.
 * Byte ranges and Content-Range are those of sections 14.1.2, 14.2, 14.4 and 15.3.7 of RFC 9110.
 */
module Download {
  import opened Basics

  const REOPEN_LIMIT := 4
  const INT64_LIMIT := 0x8000_0000_0000_0000

  // Decimal numbers in a Range header

  predicate IsDigit(c: char) {
    '0' <= c <= '9'
  }

  function Value(c: char): int {
    c as int - '0' as int
  }

  function Digit(d: nat): (c: char)
    requires d < 10
    ensures IsDigit(c) && Value(c) == d
  {
    ('0' as int + d) as char
  }

  function Digits(text: string): (value: Option<nat>)
    ensures value.Some? ==> text != "" && forall c | c in text :: IsDigit(c)
  {
    if text == "" || !IsDigit(text[|text| - 1]) then None
    else
      var digit := Value(text[|text| - 1]);
      var rest := text[..|text| - 1];
      assert text == rest + [text[|text| - 1]];
      if rest == "" then Some(digit)
      else match Digits(rest)
        case None => None
        case Some(n) => Some(10 * n + digit)
  }

  /** A signed decimal that fits in 64 bits. */
  function ParseInt(text: string): Option<int> {
    var signed := text != "" && (text[0] == '+' || text[0] == '-');
    match Digits(if signed then text[1..] else text)
    case None => None
    case Some(n) =>
      if signed && text[0] == '-' then (var m: int := n; if m <= INT64_LIMIT then Some(-m) else None)
      else if n < INT64_LIMIT then Some(n) else None
  }

  function Decimal(n: nat): string {
    if n < 10 then [Digit(n)] else Decimal(n / 10) + [Digit(n % 10)]
  }

  lemma {:induction false} DecimalDigits(n: nat)
    ensures Digits(Decimal(n)) == Some(n)
  {
    if n >= 10 {
      DecimalDigits(n / 10);
      DigitsAppend(Decimal(n / 10), n / 10, n % 10);
    }
  }

  lemma DigitsAppend(text: string, n: nat, d: nat)
    requires Digits(text) == Some(n) && d < 10
    ensures Digits(text + [Digit(d)]) == Some(10 * n + d)
  {
    var more := text + [Digit(d)];
    assert more[..|more| - 1] == text;
  }

  lemma DecimalParses(n: nat)
    requires n < INT64_LIMIT
    ensures ParseInt(Decimal(n)) == Some(n) && Decimal(n) != "" && forall c | c in Decimal(n) :: IsDigit(c)
  {
    DecimalDigits(n);
    DigitsParse(Decimal(n), n);
  }

  lemma DigitsParse(text: string, n: nat)
    requires Digits(text) == Some(n) && n < INT64_LIMIT
    ensures ParseInt(text) == Some(n)
  {
    assert text[0] in text;
  }

  // The requested range

  datatype Range = Range(start: nat, end: int, partial: bool) | Invalid | Unsatisfiable

  function Cut(text: string, c: char): (parts: Option<(string, string)>)
    ensures parts.None? <==> c !in text
    ensures parts.Some? ==> text == parts.value.0 + [c] + parts.value.1 && c !in parts.value.0
  {
    if text == "" then None
    else if text[0] == c then Some(("", text[1..]))
    else match Cut(text[1..], c)
      case None => None
      case Some(parts) => Some(([text[0]] + parts.0, parts.1))
  }

  function ParseRange(header: string, size: nat): Range {
    if header == "" then Range(0, size - 1, false)
    else if !("bytes=" <= header) || ',' in header[6..] then Invalid
    else ParseSpec(header[6..], size)
  }

  function ParseSpec(spec: string, size: nat): Range {
    match Cut(spec, '-')
    case None => Invalid
    case Some((from, to)) =>
      if from == "" then Invalid
      else match ParseInt(from)
        case None => Invalid
        case Some(start) => if start < 0 then Invalid else ParseEnd(start, to, size)
  }

  function ParseEnd(start: nat, to: string, size: nat): Range {
    if to == "" then (if start >= size then Unsatisfiable else Range(start, size - 1, true))
    else match ParseInt(to)
      case None => Invalid
      case Some(end) =>
        if end < start then Invalid
        else if start >= size then Unsatisfiable
        else Range(start, if end < size - 1 then end else size - 1, true)
  }

  /** A range that is served lies within the resource; only an empty resource has none. */
  lemma RangeIsInside(header: string, size: nat)
    requires ParseRange(header, size).Range? && size > 0
    ensures var r := ParseRange(header, size); 0 <= r.start <= r.end < size && (r.partial <==> header != "")
  {
  }

  function RangeHeader(start: nat, end: nat): string {
    "bytes=" + (Decimal(start) + "-" + Decimal(end))
  }

  /** A well-formed range is read back as written, cut to the resource, and refused when it starts beyond it. */
  lemma RangeRoundTrip(start: nat, end: nat, size: nat)
    requires start <= end < INT64_LIMIT
    ensures ParseRange(RangeHeader(start, end), size) ==
            if start >= size then Unsatisfiable else Range(start, if end < size - 1 then end else size - 1, true)
  {
    DecimalParses(start);
    DecimalParses(end);
    ParseParts(Decimal(start), start, Decimal(end), size);
    ParseHeader(Decimal(start) + "-" + Decimal(end), size);
  }

  lemma ParseParts(from: string, start: nat, to: string, size: nat)
    requires from != "" && ParseInt(from) == Some(start)
    requires (forall c | c in from :: IsDigit(c)) && forall c | c in to :: IsDigit(c)
    ensures ParseSpec(from + "-" + to, size) == ParseEnd(start, to, size)
    ensures ',' !in from + "-" + to
  {
    CutAt(from, to, '-');
  }

  lemma ParseHeader(spec: string, size: nat)
    requires ',' !in spec
    ensures ParseRange("bytes=" + spec, size) == ParseSpec(spec, size)
  {
    assert ("bytes=" + spec)[6..] == spec;
  }

  lemma RangeReadBack(start: nat, end: nat, size: nat)
    requires start <= end < size && end < INT64_LIMIT
    ensures ParseRange(RangeHeader(start, end), size) == Range(start, end, true)
  {
    RangeRoundTrip(start, end, size);
  }

  lemma {:induction false} CutAt(a: string, b: string, c: char)
    requires c !in a
    ensures Cut(a + [c] + b, c) == Some((a, b))
  {
    if a == "" {
      assert ("" + [c] + b)[1..] == b;
    } else {
      assert (a + [c] + b)[1..] == a[1..] + [c] + b;
      CutAt(a[1..], b, c);
      assert [a[0]] + a[1..] == a;
    }
  }

  // The upstream

  /** What a correct server answers: the range or the whole resource, of which it serves only so many bytes. */
  datatype Response =
    | Unreachable
    | PartialContent(from: int, to: int, total: int, length: Option<int>, served: nat)
    | Whole(length: Option<int>, served: nat)
    | OtherStatus

  /** One upstream transfer: its response, how many bytes the caller takes, and whether the request is cancelled. */
  datatype Transfer = Transfer(response: Response, accepted: nat, cancelled: bool)

  function Take(bytes: Bytes, n: nat): (taken: Bytes)
    ensures |taken| == Min(n, |bytes|) && taken <= bytes
  {
    bytes[..Min(n, |bytes|)]
  }

  function Slice(resource: Bytes, offset: nat, end: nat): Bytes
    requires offset <= end < |resource|
  {
    resource[offset..end + 1]
  }

  /** The bytes an upstream transfer of `offset`..`end` yields before it stops; none when it is refused. */
  function OpenResource(resource: Bytes, offset: nat, end: nat, response: Response): (body: Option<Bytes>)
    requires offset <= end < |resource|
    ensures body.Some? ==> body.value <= Slice(resource, offset, end)
  {
    var size, want := |resource|, end - offset + 1;
    var ranged := offset > 0 || end < size - 1;
    match response
    case PartialContent(from, to, total, length, served) =>
      if !ranged || from != offset || to != end || total != size || (length.Some? && length.value != want) then None
      else Some(Take(Slice(resource, offset, end), served))
    case Whole(length, served) =>
      if (length.Some? && length.value != size) || Min(served, size) < offset then None
      else
        var rest := Take(resource, served)[offset..];
        assert rest <= resource[offset..];
        assert Slice(resource, offset, end) == resource[offset..][..want];
        Some(Take(rest, want))
    case _ => None
  }

  datatype Reason = ClientStopped | Cancelled | ReopenLimit | ReopenRefused
  datatype Ending = Complete | Failed(status: nat) | Aborted(reason: Reason)

  function TransferAt(transfers: seq<Transfer>, i: nat): Transfer {
    if i < |transfers| then transfers[i] else Transfer(Unreachable, 0, false)
  }

  /**
   * Sends `start`..`end` to the caller. Whatever upstream serves, what is sent is a prefix of those bytes, and all of
   * them when the download completes; at most five transfers are opened, each where the last one stopped.
   */
  method SendRange(resource: Bytes, start: nat, end: nat, transfers: seq<Transfer>)
    returns (ending: Ending, sent: Bytes, offsets: seq<nat>)
    requires start <= end < |resource|
    ensures sent <= Slice(resource, start, end)
    ensures ending == Complete <==> sent == Slice(resource, start, end)
    ensures ending.Failed? <==> OpenResource(resource, start, end, TransferAt(transfers, 0).response).None?
    ensures ending.Failed? ==> ending.status == 502 && sent == ""
    ensures 1 <= |offsets| <= 1 + REOPEN_LIMIT && offsets[0] == start
    ensures forall i | 0 <= i < |offsets| :: start <= offsets[i] <= end && offsets[i] <= start + |sent|
    ensures forall i, j | 0 <= i < j < |offsets| :: offsets[i] <= offsets[j]
    ensures ending == Aborted(ReopenLimit) ==> |offsets| == 1 + REOPEN_LIMIT
    ensures ending == Aborted(Cancelled) ==> exists t :: t in transfers && t.cancelled
    ensures ending == Aborted(ClientStopped) ==> exists t :: t in transfers && t.accepted <= end - start
    ensures ending == Aborted(ReopenRefused) ==>
              OpenResource(resource, offsets[|offsets| - 1], end, TransferAt(transfers, |offsets| - 1).response).None?
  {
    sent, offsets := "", [start];
    var answer := OpenResource(resource, start, end, TransferAt(transfers, 0).response);
    if answer.None? {
      return Failed(502), sent, offsets;
    }
    var body := answer.value;
    var offset, reopens := start, 0;
    while true
      invariant reopens <= REOPEN_LIMIT && |offsets| == 1 + reopens && |offsets| <= |transfers|
      invariant offset == start + |sent| <= end && offsets[reopens] == offset && offsets[0] == start
      invariant sent == resource[start..offset]
      invariant body <= Slice(resource, offset, end)
      invariant forall i | 0 <= i < |offsets| :: start <= offsets[i] <= offset
      invariant forall i, j | 0 <= i < j < |offsets| :: offsets[i] <= offsets[j]
      decreases REOPEN_LIMIT - reopens
    {
      var transfer := transfers[reopens];
      assert transfer in transfers;
      var want := end - offset + 1;
      var offered := Min(want, |body|);
      var n := Min(offered, transfer.accepted);
      SliceTaken(resource, start, offset, end, body, n);
      sent := sent + body[..n];
      offset := offset + n;
      if n == want {
        return Complete, sent, offsets;
      }
      if n < offered {
        return Aborted(ClientStopped), sent, offsets;
      }
      if transfer.cancelled {
        return Aborted(Cancelled), sent, offsets;
      }
      if reopens >= REOPEN_LIMIT {
        return Aborted(ReopenLimit), sent, offsets;
      }
      reopens := reopens + 1;
      offsets := offsets + [offset];
      answer := OpenResource(resource, offset, end, TransferAt(transfers, reopens).response);
      if answer.None? {
        return Aborted(ReopenRefused), sent, offsets;
      }
      body := answer.value;
    }
  }

  /** The first bytes of a body sent from `offset` are the next ones of the resource. */
  lemma SliceTaken(resource: Bytes, start: nat, offset: nat, end: nat, body: Bytes, n: nat)
    requires start <= offset <= end < |resource| && body <= Slice(resource, offset, end) && n <= |body|
    ensures offset + n <= end + 1
    ensures resource[start..offset] + body[..n] == resource[start..offset + n]
    ensures resource[start..offset + n] <= Slice(resource, start, end)
    ensures offset + n <= end ==> resource[start..offset + n] != Slice(resource, start, end)
  {
    assert |Slice(resource, offset, end)| == end + 1 - offset;
    assert body[..n] == resource[offset..offset + n];
    assert resource[start..offset + n] == Slice(resource, start, end)[..offset + n - start];
  }

  /** Answers one request: its status, the bytes sent, and at which offsets upstream transfers were opened. */
  method Serve(header: string, resource: Bytes, transfers: seq<Transfer>)
    returns (ending: Ending, status: nat, sent: Bytes, offsets: seq<nat>)
    ensures var range := ParseRange(header, |resource|);
            match range
            case Invalid => ending == Failed(400) && sent == "" && offsets == []
            case Unsatisfiable => ending == Failed(416) && sent == "" && offsets == []
            case Range(start, end, partial) =>
              if resource == "" then ending == Complete && status == 200 && sent == "" && offsets == []
              else
                0 <= start <= end < |resource| && sent <= Slice(resource, start, end) &&
                |offsets| <= 1 + REOPEN_LIMIT &&
                (ending == Complete <==> sent == Slice(resource, start, end)) &&
                (!ending.Failed? ==> status == if header == "" then 200 else 206)
  {
    status, sent, offsets := 0, "", [];
    var range := ParseRange(header, |resource|);
    match range
    case Invalid => ending := Failed(400);
    case Unsatisfiable => ending := Failed(416);
    case Range(start, end, partial) =>
      if |resource| == 0 {
        return Complete, 200, "", [];
      }
      RangeIsInside(header, |resource|);
      ending, sent, offsets := SendRange(resource, start, end, transfers);
      if !ending.Failed? {
        status := if partial then 206 else 200;
      }
  }

  lemma SliceSplit(resource: Bytes, start: nat, end: nat, sent: Bytes)
    requires start <= end < |resource| && sent <= Slice(resource, start, end) && |sent| <= end - start
    ensures sent + Slice(resource, start + |sent|, end) == Slice(resource, start, end)
  {
    var all := Slice(resource, start, end);
    assert all == all[..|sent|] + all[|sent|..];
    assert all[|sent|..] == Slice(resource, start + |sent|, end);
  }

  /** A caller that keeps an aborted prefix and asks for the rest ends up with the bytes of one whole download. */
  lemma ResumeIsWhole(resource: Bytes, start: nat, end: nat, sent: Bytes)
    requires start <= end < |resource| && end < INT64_LIMIT
    requires sent < Slice(resource, start, end)
    ensures start + |sent| <= end
    ensures ParseRange(RangeHeader(start + |sent|, end), |resource|) == Range(start + |sent|, end, true)
    ensures sent + Slice(resource, start + |sent|, end) == Slice(resource, start, end)
  {
    var at := start + |sent|;
    assert at <= end by {
      assert |Slice(resource, start, end)| == end - start + 1;
    }
    assert sent + Slice(resource, at, end) == Slice(resource, start, end) by {
      SliceSplit(resource, start, end, sent);
    }
    RangeReadBack(at, end, |resource|);
  }
}
