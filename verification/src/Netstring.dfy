/**
 The netstring codec (internal/utils/netstring/netstring.go): an encoder, a decoder that
 reads from a stream, and a decoder that splits a buffer.
 */
module Netstring {
  import opened Options
  import opened Text

  /** The largest int of a 64-bit platform. */
  const MAX_INT: nat := 0x7FFF_FFFF_FFFF_FFFF

  datatype Error =
    | Eof | UnexpectedEof | IoError | EmptyLength | LeadingZero | InvalidCharacter | InvalidLength
    | TooLarge | MissingComma | MissingColon

  function Marshal(s: string): string {
    Itoa(|s|) + ":" + s + ","
  }

  /** Appending a digit would overflow an int. */
  predicate Overflows(length: nat, c: char) {
    length > (MAX_INT - Digit(c)) / 10
  }

  lemma OverflowsExactly(length: nat, c: char)
    ensures Overflows(length, c) <==> length * 10 + Digit(c) > MAX_INT
  {
  }

  // ---------- reading from a stream ----------

  /** How the stream ends after the bytes at hand. */
  datatype End = AtEof | Broken

  datatype Scan = Length(value: nat, used: nat) | Bad(error: Error, used: nat)

  function After(s: Scan): Scan {
    match s case Length(value, used) => Length(value, used + 1) case Bad(error, used) => Bad(error, used + 1)
  }

  function EndError(end: End, started: bool): Error {
    if end.Broken? then IoError else if started then UnexpectedEof else Eof
  }

  /** The length prefix, after `digits` digits of value `length` have been read. */
  function ScanLength(data: string, length: nat, digits: nat, max: int, end: End): Scan {
    if data == "" then Bad(EndError(end, digits != 0), 0)
    else
      var b := data[0];
      if b == ':' then if digits == 0 then Bad(EmptyLength, 1) else Length(length, 1)
      else if digits == 1 && length == 0 then Bad(LeadingZero, 1)
      else if !IsDigit(b) then Bad(InvalidCharacter, 1)
      else if Overflows(length, b) then Bad(InvalidLength, 1)
      else if length * 10 + Digit(b) > max then Bad(TooLarge, 1)
      else After(ScanLength(data[1..], length * 10 + Digit(b), digits + 1, max, end))
  }

  datatype Outcome = Payload(bytes: string) | Fail(error: Error)

  /** The payload and comma after a length prefix of `used` bytes. */
  function DecodeBody(data: string, length: nat, used: nat, end: End): (Outcome, nat) {
    if |data| <= used + length then (Fail(EndError(end, true)), |data|)
    else if data[used + length] != ',' then (Fail(MissingComma), used + length + 1)
    else (Payload(data[used..used + length]), used + length + 1)
  }

  /** One netstring from the front of `data`, and how many bytes that took. */
  function Decode(data: string, max: int, end: End): (Outcome, nat) {
    match ScanLength(data, 0, 0, max, end)
    case Bad(error, used) => (Fail(error), used)
    case Length(length, used) => DecodeBody(data, length, used, end)
  }

  /** Digits already read: none yet, or a canonical number. */
  ghost predicate Started(read: string) { read == "" || Canonical(read) }

  ghost predicate ScanOk(read: string, data: string, max: int, s: Scan) {
    s.Length? ==>
      && 1 <= s.used <= |data| && data[s.used - 1] == ':'
      && Canonical(read + data[..s.used - 1]) && s.value == Decimal(read + data[..s.used - 1])
      && (s.used > 1 ==> s.value <= max && s.value <= MAX_INT)
  }

  lemma ScanOkStep(read: string, data: string, max: int, s: Scan)
    requires data != "" && ScanOk(read + [data[0]], data[1..], max, s)
    requires Decimal(read + [data[0]]) <= max && Decimal(read + [data[0]]) <= MAX_INT
    ensures ScanOk(read, data, max, After(s))
  {
    if s.Length? {
      var n := s.used - 1;
      assert (read + [data[0]]) + data[1..][..n] == read + data[..n + 1];
      assert data[1..][n] == data[n + 1];
      if n == 0 {
        assert read + data[..1] == read + [data[0]];
      }
    }
  }

  /** A scan that succeeds is at the colon, or goes on after a digit within the limits. */
  lemma ScanGoesOn(data: string, length: nat, digits: nat, max: int, end: End)
    requires ScanLength(data, length, digits, max, end).Length?
    ensures data != ""
    ensures data[0] == ':' ==> digits > 0 && ScanLength(data, length, digits, max, end) == Length(length, 1)
    ensures data[0] != ':' ==>
              && IsDigit(data[0]) && !(digits == 1 && length == 0)
              && length * 10 + Digit(data[0]) <= max && length * 10 + Digit(data[0]) <= MAX_INT
              && ScanLength(data, length, digits, max, end) ==
                 After(ScanLength(data[1..], length * 10 + Digit(data[0]), digits + 1, max, end))
  {
    if data != "" {
      OverflowsExactly(length, data[0]);
    }
  }

  /** A length that scans is a canonical number within the limits, ended by a colon. */
  lemma {:induction false} ScanMeans(read: string, data: string, max: int, end: End)
    requires Started(read)
    ensures ScanOk(read, data, max, ScanLength(data, Decimal(read), |read|, max, end))
    decreases |data|
  {
    if ScanLength(data, Decimal(read), |read|, max, end).Length? {
      ScanGoesOn(data, Decimal(read), |read|, max, end);
      if data[0] == ':' {
        assert read + data[..0] == read;
      } else {
        var more := read + [data[0]];
        MoreIsCanonical(read, data[0]);
        ScanMeans(more, data[1..], max, end);
        ScanOkStep(read, data, max, ScanLength(data[1..], Decimal(more), |more|, max, end));
      }
    }
  }

  lemma MoreIsCanonical(read: string, b: char)
    requires Started(read) && IsDigit(b) && !(|read| == 1 && Decimal(read) == 0)
    ensures Canonical(read + [b]) && Decimal(read + [b]) == Decimal(read) * 10 + Digit(b)
  {
  }

  /** Reading one more digit within the limits. */
  lemma ScanDigit(read: string, b: char, tail: string, max: int, end: End)
    requires Started(read) && IsDigit(b) && !(|read| == 1 && Decimal(read) == 0)
    requires Decimal(read + [b]) <= max && Decimal(read + [b]) <= MAX_INT
    ensures ScanLength([b] + tail, Decimal(read), |read|, max, end) == After(ScanLength(tail, Decimal(read + [b]), |read| + 1, max, end))
  {
  }

  lemma DigitsGoOn(read: string, digits: string)
    requires Started(read) && Canonical(read + digits) && digits != ""
    ensures IsDigit(digits[0]) && !(|read| == 1 && Decimal(read) == 0)
  {
    var all := read + digits;
    assert all[|read|] == digits[0];
    if |read| == 1 {
      assert all[0] == read[0];
      assert read[..0] == "";
      assert Decimal(read) == Digit(read[0]) != 0;
    }
  }

  /** Conversely every canonical number within the limits scans. */
  lemma {:induction false} CanonicalScans(read: string, digits: string, rest: string, max: int, end: End)
    requires Started(read) && Canonical(read + digits)
    requires Decimal(read + digits) <= max && Decimal(read + digits) <= MAX_INT
    ensures ScanLength(digits + ":" + rest, Decimal(read), |read|, max, end) == Length(Decimal(read + digits), |digits| + 1)
    decreases |digits|
  {
    if digits == "" {
      assert read + digits == read;
      assert digits + ":" + rest == ":" + rest;
    } else {
      var b, others := digits[0], digits[1..];
      DigitsGoOn(read, digits);
      MoreIsCanonical(read, b);
      assert (read + [b]) + others == read + digits;
      DecimalOfPrefix(read + [b], others);
      CanonicalScans(read + [b], others, rest, max, end);
      ScanDigit(read, b, others + ":" + rest, max, end);
      assert digits + ":" + rest == [b] + (others + ":" + rest);
    }
  }

  // ---------- the stream decoder reads exactly what the encoder writes ----------

  /** Reading succeeds exactly on the encoding of a payload within the limit, and takes
      exactly its bytes, whatever follows. */
  lemma DecodeExactly(data: string, max: int, end: End, p: string)
    requires max <= MAX_INT
    ensures Decode(data, max, end).0 == Payload(p) <==> Marshal(p) <= data && |p| <= max
    ensures Decode(data, max, end).0 == Payload(p) ==> Decode(data, max, end).1 == |Marshal(p)|
  {
    if Decode(data, max, end).0 == Payload(p) {
      DecodedWasEncoded(data, max, end);
    }
    if Marshal(p) <= data && |p| <= max {
      EncodedDecodes(p, data[|Marshal(p)|..], max, end);
      assert data == Marshal(p) + data[|Marshal(p)|..];
    }
  }

  lemma DecodedWasEncoded(data: string, max: int, end: End)
    requires Decode(data, max, end).0.Payload?
    ensures var (o, n) := Decode(data, max, end);
            Marshal(o.bytes) <= data && n == |Marshal(o.bytes)| && |o.bytes| <= max
  {
    ScanMeans("", data, max, end);
    var s := ScanLength(data, 0, 0, max, end);
    assert s.Length? && s.used > 1 by {
      assert "" + data[..s.used - 1] == data[..s.used - 1];
    }
    FrameIsMarshal(data, s.used, s.value);
  }

  /** Canonical digits, a colon, as many bytes and a comma: that is an encoding. */
  lemma FrameIsMarshal(data: string, used: nat, length: nat)
    requires 1 <= used && used + length < |data| && data[used - 1] == ':' && data[used + length] == ','
    requires Canonical(data[..used - 1]) && length == Decimal(data[..used - 1])
    ensures data[..used + length + 1] == Marshal(data[used..used + length])
  {
    CanonicalIsItoa(data[..used - 1]);
    FourParts(data, used - 1, used + length);
  }

  lemma FourParts(data: string, i: nat, j: nat)
    requires i < j < |data|
    ensures data[..j + 1] == data[..i] + [data[i]] + data[i + 1..j] + [data[j]]
  {
  }

  lemma EncodedDecodes(p: string, rest: string, max: int, end: End)
    requires |p| <= max <= MAX_INT
    ensures Decode(Marshal(p) + rest, max, end) == (Payload(p), |Marshal(p)|)
  {
    var digits := Itoa(|p|);
    ItoaReadsBack(|p|);
    assert "" + digits == digits;
    CanonicalScans("", digits, p + "," + rest, max, end);
    MarshalParts(p, rest);
    BodyDecodes(digits + ":", p, rest, end);
  }

  lemma MarshalParts(p: string, rest: string)
    ensures Marshal(p) + rest == Itoa(|p|) + ":" + (p + "," + rest)
    ensures |Marshal(p)| == |Itoa(|p|)| + 1 + |p| + 1
  {
    var head := Itoa(|p|) + ":";
    Associative(head + p, ",", rest);
    Associative(head, p, "," + rest);
    Associative(p, ",", rest);
  }

  lemma BodyDecodes(head: string, p: string, rest: string, end: End)
    ensures DecodeBody(head + (p + "," + rest), |p|, |head|, end) == (Payload(p), |head| + |p| + 1)
  {
    var data := head + (p + "," + rest);
    assert data[|head|..|head| + |p|] == p;
    assert data[|head| + |p|] == ',';
  }

  function MarshalAll(messages: seq<string>): string {
    if messages == [] then "" else Marshal(messages[0]) + MarshalAll(messages[1..])
  }

  /** Reads `n` netstrings one after the other: the payloads and what is left, if all succeed. */
  function ReadMany(data: string, n: nat, max: int, end: End): Option<(seq<string>, string)> {
    if n == 0 then Some(([], data))
    else
      var (o, used) := Decode(data, max, end);
      if o.Fail? || used > |data| then None
      else
        match ReadMany(data[used..], n - 1, max, end)
        case None => None
        case Some((rest, left)) => Some(([o.bytes] + rest, left))
  }

  lemma ReadOne(m: string, after: string, n: nat, max: int, end: End)
    requires |m| <= max <= MAX_INT && n > 0
    ensures ReadMany(Marshal(m) + after, n, max, end) ==
            match ReadMany(after, n - 1, max, end) case None => None case Some((rest, left)) => Some(([m] + rest, left))
  {
    EncodedDecodes(m, after, max, end);
    assert (Marshal(m) + after)[|Marshal(m)|..] == after;
  }

  lemma ReadFirst(messages: seq<string>, rest: string, max: int, end: End)
    requires messages != [] && |messages[0]| <= max <= MAX_INT
    requires ReadMany(MarshalAll(messages[1..]) + rest, |messages| - 1, max, end) == Some((messages[1..], rest))
    ensures ReadMany(MarshalAll(messages) + rest, |messages|, max, end) == Some((messages, rest))
  {
    MarshalFirst(messages, rest);
    ReadOne(messages[0], MarshalAll(messages[1..]) + rest, |messages|, max, end);
  }

  /** Round trip over a whole stream: reading back any number of encoded messages within the
      limit returns exactly those messages and leaves exactly the bytes after them. */
  lemma {:induction false} StreamRoundTrip(messages: seq<string>, rest: string, max: int, end: End)
    requires max <= MAX_INT && forall k :: 0 <= k < |messages| ==> |messages[k]| <= max
    ensures ReadMany(MarshalAll(messages) + rest, |messages|, max, end) == Some((messages, rest))
    decreases |messages|
  {
    if messages != [] {
      StreamRoundTrip(messages[1..], rest, max, end);
      ReadFirst(messages, rest, max, end);
    } else {
      assert MarshalAll(messages) + rest == rest;
    }
  }

  lemma MarshalFirst(messages: seq<string>, rest: string)
    requires messages != []
    ensures MarshalAll(messages) + rest == Marshal(messages[0]) + (MarshalAll(messages[1..]) + rest)
    ensures messages == [messages[0]] + messages[1..]
  {
    Associative(Marshal(messages[0]), MarshalAll(messages[1..]), rest);
  }

  lemma Associative(a: string, b: string, c: string)
    ensures (a + b) + c == a + (b + c)
  {
  }

  // ---------- splitting a buffer ----------

  datatype Token = More | Found(advance: nat, token: string) | Malformed(error: Error)

  /** The value of a length prefix, or what is wrong with it. */
  datatype Prefix = Value(length: nat) | Wrong(error: Error)

  function PrefixDigits(s: string): Prefix {
    if s == "" then Value(0)
    else
      match PrefixDigits(s[..|s| - 1])
      case Wrong(error) => Wrong(error)
      case Value(length) =>
        var c := s[|s| - 1];
        if !IsDigit(c) then Wrong(InvalidCharacter)
        else if Overflows(length, c) then Wrong(InvalidLength)
        else Value(length * 10 + Digit(c))
  }

  function PrefixOf(s: string): Prefix {
    if s == "" then Wrong(EmptyLength)
    else if |s| > 1 && s[0] == '0' then Wrong(LeadingZero)
    else PrefixDigits(s)
  }

  /** internal/utils/netstring/netstring.go:85-127. */
  function SplitNetstring(data: string, atEof: bool): Token {
    if data == "" then More
    else
      var colon := IndexOf(data, ':');
      if colon == |data| then if atEof then Malformed(MissingColon) else More
      else
        match PrefixOf(data[..colon])
        case Wrong(error) => Malformed(error)
        case Value(length) =>
          var start := colon + 1;
          if length >= |data| - start then if atEof then Malformed(UnexpectedEof) else More
          else if data[start + length] != ',' then Malformed(MissingComma)
          else Found(start + length + 1, data[start..start + length])
  }

  lemma {:induction false} PrefixDigitsMeans(s: string)
    ensures PrefixDigits(s) == Value(Decimal(s)) <==> (forall i :: 0 <= i < |s| ==> IsDigit(s[i])) && Decimal(s) <= MAX_INT
    ensures PrefixDigits(s).Value? ==> PrefixDigits(s) == Value(Decimal(s))
  {
    if s != "" {
      var rest, c := s[..|s| - 1], s[|s| - 1];
      PrefixDigitsMeans(rest);
      OverflowsExactly(Decimal(rest), c);
    }
  }

  lemma PrefixMeans(s: string)
    ensures PrefixOf(s) == Value(Decimal(s)) <==> Canonical(s) && Decimal(s) <= MAX_INT
    ensures PrefixOf(s).Value? ==> PrefixOf(s) == Value(Decimal(s))
  {
    PrefixDigitsMeans(s);
  }

  lemma FoundIsMarshal(data: string, atEof: bool)
    requires SplitNetstring(data, atEof).Found?
    ensures var t := SplitNetstring(data, atEof);
            Marshal(t.token) <= data && t.advance == |Marshal(t.token)| && |t.token| <= MAX_INT
  {
    var digits := data[..IndexOf(data, ':')];
    PrefixMeans(digits);
    FrameIsMarshal(data, |digits| + 1, Decimal(digits));
  }

  /** The buffer decoder finds a token exactly where the buffer starts with an encoding. */
  lemma SplitExactly(data: string, atEof: bool, n: nat, p: string)
    ensures SplitNetstring(data, atEof) == Found(n, p) <==> Marshal(p) <= data && n == |Marshal(p)| && |p| <= MAX_INT
  {
    if SplitNetstring(data, atEof) == Found(n, p) {
      FoundIsMarshal(data, atEof);
    }
    if Marshal(p) <= data && n == |Marshal(p)| && |p| <= MAX_INT {
      PrefixAndRest(Marshal(p), data);
      MarshalSplits(p, data[n..], atEof);
    }
  }

  lemma PrefixAndRest(a: string, s: string)
    requires a <= s
    ensures s == a + s[|a|..]
  {
  }

  lemma MarshalSplits(p: string, rest: string, atEof: bool)
    requires |p| <= MAX_INT
    ensures SplitNetstring(Marshal(p) + rest, atEof) == Found(|Marshal(p)|, p)
  {
    var digits := Itoa(|p|);
    MarshalParts(p, rest);
    ItoaReadsBack(|p|);
    PrefixMeans(digits);
    assert ':' !in digits;
    FrameSplits(digits, p, rest, atEof);
  }

  lemma FrameSplits(digits: string, p: string, rest: string, atEof: bool)
    requires ':' !in digits && PrefixOf(digits) == Value(|p|)
    ensures SplitNetstring(digits + ":" + (p + "," + rest), atEof) == Found(|digits| + 1 + |p| + 1, p)
  {
    var tail := p + "," + rest;
    IndexOfAppended(digits, ':', tail);
    var data := digits + [':'] + tail;
    assert data[..|digits|] == digits;
    var start := |digits| + 1;
    assert data[start..] == tail;
    assert data[start + |p|] == ',';
    assert data[start..start + |p|] == p;
  }

  /** The two decoders accept the same frames, with the same payload and length, whenever the
      payload limit is not binding. */
  lemma DecodersAgree(data: string, max: int, end: End, atEof: bool, n: nat, p: string)
    requires |p| <= max <= MAX_INT
    ensures Decode(data, max, end) == (Payload(p), n) <==> SplitNetstring(data, atEof) == Found(n, p)
  {
    DecodeExactly(data, max, end, p);
    SplitExactly(data, atEof, n, p);
  }

  /** A token or an error found in a buffer that is not the last one stands, whatever bytes
      arrive later. */
  lemma SplitIsStable(data: string, more: string, atEof: bool)
    requires !SplitNetstring(data, false).More?
    ensures SplitNetstring(data + more, atEof) == SplitNetstring(data, false)
  {
    var colon := IndexOf(data, ':');
    var digits, rest := data[..colon], data[colon + 1..];
    assert data + more == digits + [':'] + (rest + more);
    IndexOfAppended(digits, ':', rest + more);
    assert (data + more)[..colon] == digits;
    var start := colon + 1;
    if PrefixOf(digits).Value? {
      var length := PrefixOf(digits).length;
      assert (data + more)[start + length] == data[start + length];
      assert (data + more)[start..start + length] == data[start..start + length];
    }
  }

  method SplitBuffer(data: string, atEof: bool) returns (t: Token)
    ensures t == SplitNetstring(data, atEof)
  {
    if |data| == 0 {
      return More;
    }
    var colonPos := IndexOf(data, ':');
    if colonPos == |data| {
      return if atEof then Malformed(MissingColon) else More;
    }
    var lengthBytes := data[..colonPos];
    if |lengthBytes| == 0 {
      return Malformed(EmptyLength);
    }
    if |lengthBytes| > 1 && lengthBytes[0] == '0' {
      return Malformed(LeadingZero);
    }
    var length: nat := 0;
    for i := 0 to |lengthBytes|
      invariant PrefixDigits(lengthBytes[..i]) == Value(length)
    {
      var c := lengthBytes[i];
      assert lengthBytes[..i + 1][..i] == lengthBytes[..i];
      if !IsDigit(c) {
        WrongPersists(lengthBytes, i + 1);
        return Malformed(InvalidCharacter);
      }
      if length > (MAX_INT - Digit(c)) / 10 {
        WrongPersists(lengthBytes, i + 1);
        return Malformed(InvalidLength);
      }
      length := length * 10 + Digit(c);
    }
    assert lengthBytes[..|lengthBytes|] == lengthBytes;
    var payloadStart := colonPos + 1;
    if length >= |data| - payloadStart {
      return if atEof then Malformed(UnexpectedEof) else More;
    }
    var commaPos := payloadStart + length;
    if data[commaPos] != ',' {
      return Malformed(MissingComma);
    }
    return Found(commaPos + 1, data[colonPos + 1..commaPos]);
  }

  lemma {:induction false} WrongPersists(s: string, i: nat)
    requires i <= |s| && PrefixDigits(s[..i]).Wrong?
    ensures PrefixDigits(s) == PrefixDigits(s[..i])
  {
    if i < |s| {
      var rest := s[..|s| - 1];
      assert rest[..i] == s[..i];
      WrongPersists(rest, i);
    } else {
      assert s[..i] == s;
    }
  }

  // ---------- the reader ----------

  /** A buffered reader over the bytes a peer sends before the stream ends. */
  class Reader {
    const data: string
    const end: End
    var pos: nat

    constructor (data: string, end: End)
      ensures this.data == data && this.end == end && pos == 0
    {
      this.data := data;
      this.end := end;
      pos := 0;
    }

    method ReadByte() returns (b: Option<char>)
      requires pos <= |data|
      modifies this
      ensures pos <= |data|
      ensures old(pos) < |data| ==> b == Some(data[old(pos)]) && pos == old(pos) + 1
      ensures old(pos) == |data| ==> b == None && pos == old(pos)
    {
      if pos == |data| {
        return None;
      }
      b := Some(data[pos]);
      pos := pos + 1;
    }

    /** Fills a buffer of `n` bytes, or reads everything that is left. */
    method ReadFull(n: nat) returns (bytes: Option<string>)
      requires pos <= |data|
      modifies this
      ensures pos <= |data|
      ensures n <= |data| - old(pos) ==> bytes == Some(data[old(pos)..old(pos) + n]) && pos == old(pos) + n
      ensures n > |data| - old(pos) ==> bytes == None && pos == |data|
    {
      if |data| - pos < n {
        pos := |data|;
        return None;
      }
      bytes := Some(data[pos..pos + n]);
      pos := pos + n;
    }

    /** internal/utils/netstring/netstring.go:30-83. Takes exactly the bytes of one netstring. */
    method Read(maxPayload: int) returns (o: Outcome)
      requires pos <= |data|
      modifies this
      ensures pos <= |data|
      ensures (o, pos - old(pos)) == Decode(data[old(pos)..], maxPayload, end)
    {
      ghost var start, all := pos, data[pos..];
      var length: nat := 0;
      var digits: nat := 0;
      while true
        invariant start <= pos <= |data|
        invariant Advanced(ScanLength(all, 0, 0, maxPayload, end), ScanLength(data[pos..], length, digits, maxPayload, end), pos - start)
        decreases |data| - pos
      {
        ghost var rest := data[pos..];
        var b := ReadByte();
        if b.None? {
          return Fail(EndError(end, digits != 0));
        }
        assert rest[0] == b.value && rest[1..] == data[pos..];
        if b.value == ':' {
          if digits == 0 {
            return Fail(EmptyLength);
          }
          break;
        }
        if digits == 1 && length == 0 {
          return Fail(LeadingZero);
        }
        if b.value < '0' || b.value > '9' {
          return Fail(InvalidCharacter);
        }
        var digit := Digit(b.value);
        if length > (MAX_INT - digit) / 10 {
          return Fail(InvalidLength);
        }
        length := length * 10 + digit;
        digits := digits + 1;
        if length > maxPayload {
          return Fail(TooLarge);
        }
      }
      o := ReadBody(length, start);
    }

    method ReadBody(length: nat, ghost start: nat) returns (o: Outcome)
      requires start <= pos <= |data|
      modifies this
      ensures pos <= |data| && old(pos) <= pos
      ensures (o, pos - start) == DecodeBody(data[start..], length, old(pos) - start, end)
    {
      var payload := ReadFull(length);
      if payload.None? {
        return Fail(EndError(end, true));
      }
      var terminator := ReadByte();
      if terminator.None? {
        return Fail(EndError(end, true));
      }
      if terminator.value != ',' {
        return Fail(MissingComma);
      }
      assert data[start..][old(pos) - start..old(pos) - start + length] == data[old(pos)..old(pos) + length];
      return Payload(payload.value);
    }
  }

  /** Scan `whole` is scan `rest` after `n` more bytes. */
  ghost predicate Advanced(whole: Scan, rest: Scan, n: nat) {
    match rest
    case Length(value, used) => whole == Length(value, used + n)
    case Bad(error, used) => whole == Bad(error, used + n)
  }
}
