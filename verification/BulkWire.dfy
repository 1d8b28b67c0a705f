/** The length-prefixed bulk parameter format and its GET/SET handler.
    A message is "<count>\n" followed by count records "<len>\n<len bytes>". */
module BulkWire {
  import opened Machine

  const VALUE_LEN := 65536
  const KEY_LEN := 64
  const MAX_ITEMS := 64

  const NL: Byte := 10
  const DIGIT0: Byte := 48

  const HALF32 := 0x8000_0000
  const HALF64 := 0x8000_0000_0000_0000

  predicate IsDigit(b: Byte) {
    DIGIT0 <= b <= DIGIT0 + 9
  }

  /** A C signed integer of magnitude `half`; overflow is taken to wrap. */
  function Signed(x: int, half: int): int
    requires half > 0
  {
    if -half <= x < half then x else (x + half) % (2 * half) - half
  }

  // ---- Reference format ----

  /** Decimal text of n, as "%d" prints it. */
  function Dec(n: nat): Bytes {
    if n < 10 then [DIGIT0 + n] else Dec(n / 10) + [DIGIT0 + n % 10]
  }

  function Header(count: nat): Bytes {
    Dec(count) + [NL]
  }

  function EncodeRecord(b: Bytes): Bytes {
    Header(|b|) + b
  }

  function EncodeBody(items: seq<Bytes>): Bytes {
    if items == [] then []
    else EncodeBody(items[..|items| - 1]) + EncodeRecord(items[|items| - 1])
  }

  function Encode(items: seq<Bytes>): Bytes {
    Header(|items|) + EncodeBody(items)
  }

  // ---- Reference parser ----

  /** The end of the run of digits that starts at p. */
  function DigitsEnd(s: Bytes, p: nat): (q: nat)
    requires p <= |s|
    ensures p <= q <= |s|
    ensures forall i :: p <= i < q ==> IsDigit(s[i])
    ensures q < |s| ==> !IsDigit(s[q])
    decreases |s| - p
  {
    if p < |s| && IsDigit(s[p]) then DigitsEnd(s, p + 1) else p
  }

  /** The number a run of digits stands for, in a signed integer of magnitude half. */
  function Value(ds: Bytes, half: int): int
    requires half > 0
  {
    if ds == [] then 0
    else Signed(Value(ds[..|ds| - 1], half) * 10 + (ds[|ds| - 1] - DIGIT0), half)
  }

  datatype Number = Number(value: int, next: nat)

  /** A non-empty run of digits and a newline. */
  function ReadNumber(s: Bytes, p: nat, half: int): (r: Option<Number>)
    requires p <= |s| && half > 0
    ensures r.Some? ==> p < r.value.next <= |s|
  {
    var q := DigitsEnd(s, p);
    if q == p || q >= |s| || s[q] != NL then None
    else Some(Number(Value(s[p..q], half), q + 1))
  }

  datatype Record = Record(bytes: Bytes, next: nat)

  /** The record at p, if s holds a well-formed one there. */
  function Next(s: Bytes, p: nat): (r: Option<Record>)
    requires p <= |s|
    ensures r.Some? ==> p < r.value.next <= |s|
  {
    match ReadNumber(s, p, HALF64)
    case None => None
    case Some(len) =>
      if len.value < 0 || len.next + len.value > |s| then None
      else Some(Record(s[len.next..len.next + len.value], len.next + len.value))
  }

  /** The first n records from p, if there are that many. */
  function Records(s: Bytes, p: nat, n: nat): Option<seq<Bytes>>
    requires p <= |s|
    decreases n
  {
    if n == 0 then Some([])
    else
      match Next(s, p)
      case None => None
      case Some(rec) =>
        match Records(s, rec.next, n - 1)
        case None => None
        case Some(rest) => Some([rec.bytes] + rest)
  }

  /** What a client reads out of a message. */
  function Decode(s: Bytes): Option<seq<Bytes>> {
    match ReadNumber(s, 0, HALF32)
    case None => None
    case Some(count) => if count.value < 0 then None else Records(s, count.next, count.value)
  }

  // ---- Printing and parsing undo each other ----

  /** s holds body at position p. */
  ghost predicate Has(s: Bytes, p: nat, body: Bytes) {
    p + |body| <= |s| && s[p..p + |body|] == body
  }

  lemma HasParts(s: Bytes, p: nat, a: Bytes, b: Bytes)
    ensures Has(s, p, a + b) <==> Has(s, p, a) && Has(s, p + |a|, b)
  {
    var body := a + b;
    var q := p + |a|;
    if Has(s, p, body) {
      assert s[p..q] == s[p..p + |body|][..|a|] == a;
      assert s[q..q + |b|] == s[p..p + |body|][|a|..] == b;
    }
    if Has(s, p, a) && Has(s, q, b) {
      assert s[p..p + |body|] == s[p..q] + s[q..q + |b|];
    }
  }

  lemma {:induction false} DecIsDigits(n: nat)
    ensures |Dec(n)| > 0 && forall i :: 0 <= i < |Dec(n)| ==> IsDigit(Dec(n)[i])
  {
    if n >= 10 {
      DecIsDigits(n / 10);
    }
  }

  /** Decimal, most significant digit first, in ASCII. */
  lemma DecDigits(m: nat, d: nat)
    requires d < 10
    ensures Dec(d) == [48 + d]
    ensures m > 0 ==> Dec(10 * m + d) == Dec(m) + [48 + d]
  {
    assert (10 * m + d) / 10 == m && (10 * m + d) % 10 == d;
  }

  /** The message for "abc" and the empty string: "2", "3", "abc", "0", each number on its line. */
  lemma WireExample()
    ensures Encode([[97, 98, 99], []]) == [50, 10, 51, 10, 97, 98, 99, 48, 10]
  {
    var abc: Bytes := [97, 98, 99];
    var items: seq<Bytes> := [abc, []];
    assert items[..1] == [abc] && [abc][..0] == [];
    assert EncodeBody([abc]) == EncodeBody([]) + EncodeRecord(abc);
    assert EncodeBody(items) == EncodeBody([abc]) + EncodeRecord([]);
  }

  lemma {:induction false} DecValue(n: nat, half: int)
    requires n < half
    ensures Value(Dec(n), half) == n
  {
    if n >= 10 {
      DecValue(n / 10, half);
      var ds := Dec(n);
      assert ds[..|ds| - 1] == Dec(n / 10);
    } else {
      assert [DIGIT0 + n][..0] == [];
    }
  }

  lemma {:induction false} DigitsEndIs(s: Bytes, p: nat, q: nat)
    requires p <= q <= |s|
    requires forall i :: p <= i < q ==> IsDigit(s[i])
    requires q < |s| ==> !IsDigit(s[q])
    ensures DigitsEnd(s, p) == q
    decreases q - p
  {
    if p < q {
      DigitsEndIs(s, p + 1, q);
    }
  }

  /** A printed number followed by a newline reads back as itself, wherever it stands. */
  lemma ReadPrinted(s: Bytes, p: nat, n: nat, half: int)
    requires n < half && Has(s, p, Header(n))
    ensures ReadNumber(s, p, half) == Some(Number(n, p + |Header(n)|))
  {
    hide Dec, Value;
    var q := p + |Dec(n)|;
    HasParts(s, p, Dec(n), [NL]);
    assert s[q] == s[q..q + 1][0];
    DecIsDigits(n);
    forall i | p <= i < q
      ensures IsDigit(s[i])
    {
      assert s[i] == s[p..q][i - p];
    }
    DigitsEndIs(s, p, q);
    DecValue(n, half);
  }

  /** bulk_next on what bulk_put wrote gives the bytes back, whatever they contain and
      whatever stands around the record. */
  lemma NextOfEncoded(s: Bytes, p: nat, b: Bytes)
    requires |b| < HALF64 && Has(s, p, EncodeRecord(b))
    ensures Next(s, p) == Some(Record(b, p + |EncodeRecord(b)|))
  {
    hide Dec, ReadNumber, Header;
    var q := p + |Header(|b|)|;
    HasParts(s, p, Header(|b|), b);
    ReadPrinted(s, p, |b|, HALF64);
    assert s[q..q + |b|] == b;
  }

  lemma {:induction false} BodyPrepend(b: Bytes, items: seq<Bytes>)
    ensures EncodeBody([b] + items) == EncodeRecord(b) + EncodeBody(items)
    decreases |items|
  {
    hide EncodeRecord;
    var all := [b] + items;
    var n := |items|;
    assert EncodeBody(all) == EncodeBody(all[..n]) + EncodeRecord(all[n]);
    if n == 0 {
      assert all[..0] == [];
    } else {
      BodyPrepend(b, items[..n - 1]);
      assert all[..n] == [b] + items[..n - 1];
      assert all[n] == items[n - 1];
    }
  }

  /** A printed list of byte strings parses back to the same list. */
  lemma {:induction false} RecordsOfEncoded(s: Bytes, p: nat, items: seq<Bytes>)
    requires Has(s, p, EncodeBody(items)) && forall b :: b in items ==> |b| < HALF64
    ensures Records(s, p, |items|) == Some(items)
    decreases |items|
  {
    hide EncodeRecord, EncodeBody, Next, Has;
    HasInBounds(s, p, EncodeBody(items));
    if items != [] {
      var q := FirstRecord(s, p, items);
      HasInBounds(s, q, EncodeBody(items[1..]));
      RecordsOfEncoded(s, q, items[1..]);
      assert items == [items[0]] + items[1..];
    }
  }

  lemma HasInBounds(s: Bytes, p: nat, body: Bytes)
    requires Has(s, p, body)
    ensures p + |body| <= |s|
  {
  }

  /** The first record of a printed list, and where the printed rest begins. */
  lemma FirstRecord(s: Bytes, p: nat, items: seq<Bytes>) returns (q: nat)
    requires items != [] && Has(s, p, EncodeBody(items)) && |items[0]| < HALF64
    ensures p <= |s| && Next(s, p) == Some(Record(items[0], q))
    ensures Has(s, q, EncodeBody(items[1..]))
    ensures q + |EncodeBody(items[1..])| == p + |EncodeBody(items)|
  {
    hide EncodeRecord, EncodeBody, Next;
    var b, rest := items[0], items[1..];
    BodyPrepend(b, rest);
    assert items == [b] + rest;
    HasParts(s, p, EncodeRecord(b), EncodeBody(rest));
    NextOfEncoded(s, p, b);
    q := p + |EncodeRecord(b)|;
  }

  /** A printed message announces its length and is followed by its printed records. */
  lemma MessageHeader(s: Bytes, items: seq<Bytes>)
    requires |items| < HALF32 && Has(s, 0, Encode(items))
    ensures ReadNumber(s, 0, HALF32) == Some(Number(|items|, |Header(|items|)|))
    ensures Has(s, |Header(|items|)|, EncodeBody(items))
  {
    hide EncodeBody, ReadNumber;
    HasParts(s, 0, Header(|items|), EncodeBody(items));
    ReadPrinted(s, 0, |items|, HALF32);
  }

  /** Round trip of whole messages, with anything after them. */
  lemma DecodeEncode(items: seq<Bytes>, rest: Bytes)
    requires |items| < HALF32 && forall b :: b in items ==> |b| < HALF64
    ensures Decode(Encode(items) + rest) == Some(items)
  {
    hide Encode, ReadNumber, Records, EncodeBody;
    var s := Encode(items) + rest;
    HasParts(s, 0, Encode(items), rest);
    HasWhole(s);
    MessageHeader(s, items);
    RecordsOfEncoded(s, |Header(|items|)|, items);
  }

  // ---- The C helpers ----

  /** The digit loop shared by the count and the record lengths. */
  method ScanNumber(buf: array<Byte>, p: nat, end: nat, half: int) returns (r: Option<Number>)
    requires p <= end <= buf.Length && half > 0
    ensures r == ReadNumber(buf[..end], p, half)
  {
    hide Signed;
    ghost var s := buf[..end];
    var n, q := 0, p;
    while q < end && IsDigit(buf[q])
      invariant p <= q <= end
      invariant forall i :: p <= i < q ==> IsDigit(s[i])
      invariant n == Value(s[p..q], half)
    {
      assert s[p..q + 1][..q - p] == s[p..q];
      n := Signed(n * 10 + (buf[q] - DIGIT0), half);
      q := q + 1;
    }
    DigitsEndIs(s, p, q);
    if q == p || q >= end || buf[q] != NL {
      return None;
    }
    return Some(Number(n, q + 1));
  }

  /** bulk_next: the start and length of the record at p, within the first end bytes. */
  method BulkNext(buf: array<Byte>, p: nat, end: nat) returns (found: bool, start: nat, len: nat)
    requires p <= end <= buf.Length
    ensures found <==> Next(buf[..end], p).Some?
    ensures found ==> start + len <= end && Next(buf[..end], p).value == Record(buf[start..start + len], start + len)
    ensures !found ==> start == p && len == 0
  {
    var number := ScanNumber(buf, p, end, HALF64);
    if number.None? || number.value.value < 0 || number.value.next + number.value.value > end {
      return false, p, 0;
    }
    found, start, len := true, number.value.next, number.value.value;
    assert buf[..end][start..start + len] == buf[start..start + len];
  }

  /** snprintf(out + off, size, text): at most size - 1 bytes and then a NUL; the length of
      the whole text is returned. */
  method Snprintf(out: array<Byte>, off: nat, size: nat, text: Bytes) returns (n: nat)
    requires off + size <= out.Length
    modifies out
    ensures n == |text|
    ensures out[..off] == old(out[..off])
    ensures size > |text| ==> out[off..off + |text|] == text
    ensures 0 < size <= |text| ==> out[off..off + size - 1] == text[..size - 1] && out[off + size - 1] == NUL
  {
    n := |text|;
    if size > 0 {
      var k := Min(n, size - 1);
      for i := 0 to k
        invariant out[..off] == old(out[..off])
        invariant out[off..off + i] == text[..i]
      {
        out[off + i] := text[i];
      }
      out[off + k] := NUL;
    }
  }

  /** What bulk_put leaves at off on success. When an empty record ends exactly at cap,
      snprintf has no room for its newline and stores its NUL there instead. */
  function PutBytes(b: Bytes, end: nat, cap: nat): (r: Bytes)
    ensures |r| == |EncodeRecord(b)|
  {
    if b == [] && end == cap then Dec(0) + [NUL] else EncodeRecord(b)
  }

  method BulkPut(out: array<Byte>, off: nat, cap: nat, bytes: array<Byte>, len: nat) returns (end: int)
    requires off <= cap == out.Length && len <= bytes.Length && bytes != out
    modifies out
    ensures end == if off + |EncodeRecord(bytes[..len])| <= cap then off + |EncodeRecord(bytes[..len])| else -1
    ensures out[..off] == old(out[..off])
    ensures end >= 0 ==> out[off..end] == PutBytes(bytes[..len], end, cap)
  {
    var text := Header(len);
    var hdr := Snprintf(out, off, cap - off, text);
    if off + hdr + len > cap {
      return -1;
    }
    ghost var printed := out[..];
    for i := 0 to len
      invariant out[..off + hdr] == printed[..off + hdr]
      invariant out[off + hdr..off + hdr + i] == bytes[..i]
    {
      out[off + hdr + i] := bytes[i];
    }
    end := off + hdr + len;
    PutLayout(printed, out[..], off, hdr, bytes[..len]);
  }

  lemma PutLayout(printed: Bytes, final: Bytes, off: nat, hdr: nat, b: Bytes)
    requires |printed| == |final| && hdr == |Header(|b|)| && off + hdr + |b| <= |final|
    requires final[..off + hdr] == printed[..off + hdr] && final[off + hdr..off + hdr + |b|] == b
    requires |final| - off > hdr ==> printed[off..off + hdr] == Header(|b|)
    requires |final| - off == hdr ==>
               printed[off..off + hdr - 1] == Header(|b|)[..hdr - 1] && printed[off + hdr - 1] == NUL
    ensures final[off..off + hdr + |b|] == PutBytes(b, off + hdr + |b|, |final|)
    ensures final[..off] == printed[..off]
  {
    hide Dec;
    assert final[..off] == final[..off + hdr][..off];
    assert printed[..off] == printed[..off + hdr][..off];
    assert final[off..off + hdr] == final[..off + hdr][off..] == printed[..off + hdr][off..] == printed[off..off + hdr];
    assert final[off..off + hdr + |b|] == final[off..off + hdr] + final[off + hdr..off + hdr + |b|];
    if |final| - off == hdr {
      assert b == [] && Header(0)[..hdr - 1] == Dec(0);
      assert printed[off..off + hdr] == printed[off..off + hdr - 1] + [printed[off + hdr - 1]];
    }
  }

  // ---- The handler ----

  /** What get_param returns and the bytes it writes into the buffer it is given. */
  datatype GetResult = GetResult(r: int, filled: Bytes)

  /** The active overtake module; get_param and set_param may each be missing. */
  datatype Api = Api(get: Option<Bytes -> GetResult>, hasSet: bool)

  datatype Setting = Setting(key: Bytes, value: Bytes)

  predicate UsableKey(key: Bytes) {
    0 < |key| < KEY_LEN
  }

  datatype Fetched = Fetched(value: Bytes, scratch: Bytes)

  /** The scratch buffer after a get_param call; the call is told the buffer's size. */
  function Fill(scratch: Bytes, filled: Bytes): (r: Bytes)
    ensures |r| == |scratch|
  {
    var k := Min(|filled|, |scratch|);
    filled[..k] + scratch[k..]
  }

  /** One answer of a BULK_GET: the first r bytes of the scratch buffer, or nothing. */
  function Fetch(api: Api, key: Bytes, scratch: Bytes): (f: Fetched)
    requires |scratch| == VALUE_LEN
    ensures |f.scratch| == VALUE_LEN && |f.value| < VALUE_LEN
  {
    if UsableKey(key) && api.get.Some? then
      var g := api.get.value(key);
      var after := Fill(scratch, g.filled);
      Fetched(after[..Max(0, Min(g.r, VALUE_LEN - 1))], after)
    else
      Fetched([], scratch)
  }

  /** The answers to n keys read from p. A malformed key ends the parse, and it and all
      later ones are answered with nothing. */
  function Answers(api: Api, s: Bytes, p: nat, n: nat, scratch: Bytes): (r: seq<Bytes>)
    requires p <= |s| && |scratch| == VALUE_LEN
    ensures |r| == n && forall b :: b in r ==> |b| < VALUE_LEN
    decreases n
  {
    if n == 0 then []
    else
      match Next(s, p)
      case None => [[]] + Answers(api, s, p, n - 1, scratch)
      case Some(rec) =>
        var f := Fetch(api, rec.bytes, scratch);
        [f.value] + Answers(api, s, rec.next, n - 1, f.scratch)
  }

  /** The call one pair leads to; a key that is empty or too long for keybuf is skipped. */
  function PairSetting(key: Bytes, value: Bytes): seq<Setting> {
    if UsableKey(key) && |value| < VALUE_LEN then [Setting(CString(key), CString(value))] else []
  }

  /** The calls a BULK_SET of n pairs makes, in order. */
  function Settings(s: Bytes, p: nat, n: nat): seq<Setting>
    requires p <= |s|
    decreases n
  {
    if n == 0 then []
    else
      match Next(s, p)
      case None => []
      case Some(k) =>
        match Next(s, k.next)
        case None => []
        case Some(v) => PairSetting(k.bytes, v.bytes) + Settings(s, v.next, n - 1)
  }

  /** The bytes of the reply buffer once `values` of an announced `count` have been put. */
  function Stored(count: nat, values: seq<Bytes>): (r: Bytes)
    ensures |r| == |Header(count) + EncodeBody(values)|
  {
    var plain := Header(count) + EncodeBody(values);
    if Damaged(count, values) then plain[..|plain| - 1] + [NUL] else plain
  }

  /** The reply fills the buffer to its last byte with an empty record. */
  predicate Damaged(count: nat, values: seq<Bytes>) {
    values != [] && values[|values| - 1] == [] && |Header(count)| + |EncodeBody(values)| == VALUE_LEN
  }

  /** What a BULK_SET of the message in `value` does. */
  ghost predicate SetOutcome(api: Api, value: Bytes, before: seq<Setting>,
      error: int, resultLen: int, after: seq<Setting>)
  {
    match ReadNumber(value, 0, HALF32)
    case None => error == 22 && resultLen == -1 && after == before
    case Some(count) =>
      if 0 <= count.value <= MAX_ITEMS && count.value % 2 == 0 then
        && error == 0 && resultLen == 0
        && after == before + if api.hasSet then Settings(value, count.next, count.value / 2) else []
      else
        error == 22 && resultLen == -1 && after == before
  }

  /** What a BULK_GET of the message in `before` does: it succeeds exactly when the whole reply
      fits, and then leaves the Stored bytes. */
  ghost predicate GetOutcome(api: Api, before: Bytes, scratch: Bytes, error: int, resultLen: int, after: Bytes)
    requires |before| == |scratch| == |after| == VALUE_LEN
  {
    var s := CString(before[..VALUE_LEN - 1]);
    match ReadNumber(s, 0, HALF32)
    case None => error == 22 && resultLen == -1
    case Some(count) =>
      if 0 <= count.value <= MAX_ITEMS then
        var answers := Answers(api, s, count.next, count.value, scratch);
        var size := |Encode(answers)|;
        if size <= VALUE_LEN then error == 0 && resultLen == size && after[..size] == Stored(count.value, answers)
        else error == 22 && resultLen == -1
      else error == 22 && resultLen == -1
  }

  class Channel {
    const value: array<Byte>     // the shared 64 KB value field
    const request: array<Byte>   // s_bulk_req
    const scratch: array<Byte>   // s_bulk_val
    var error: int
    var resultLen: int
    var applied: seq<Setting>    // the set_param calls made so far

    ghost predicate Valid()
      reads this
    {
      && value.Length == request.Length == scratch.Length == VALUE_LEN
      && value != request && value != scratch && request != scratch
    }

    constructor ()
      ensures Valid() && fresh(value) && fresh(request) && fresh(scratch)
      ensures applied == []
    {
      value := new Byte[VALUE_LEN](_ => 0);
      request := new Byte[VALUE_LEN](_ => 0);
      scratch := new Byte[VALUE_LEN](_ => 0);
      error, resultLen, applied := 0, 0, [];
    }

    method Reject(code: int)
      modifies this
      ensures error == code && resultLen == -1 && applied == old(applied)
    {
      error, resultLen := code, -1;
    }

    /** Copies the request's C string out of `value`, within its first VALUE_LEN - 1 bytes. */
    method CopyRequest() returns (n: nat)
      requires Valid()
      modifies request
      ensures n < VALUE_LEN
      ensures request[..n] == CString(value[..VALUE_LEN - 1])
    {
      n := 0;
      ghost var all := value[..VALUE_LEN - 1];
      while n < VALUE_LEN - 1 && value[n] != NUL
        invariant n <= VALUE_LEN - 1
        invariant request[..n] == all[..n] && NUL !in all[..n]
      {
        request[n] := value[n];
        n := n + 1;
      }
      CStringIs(all, n);
    }

    /** BULK_SET: parses `value` in place and applies the pairs one by one until a record
        is malformed. */
    method BulkSet(api: Api)
      requires Valid()
      modifies this, scratch
      ensures SetOutcome(api, value[..], old(applied), error, resultLen, applied)
    {
      hide ReadNumber, Next, CString, Settings;
      assert value[..VALUE_LEN] == value[..];
      var header := ScanNumber(value, 0, VALUE_LEN, HALF32);
      if header.None? || header.value.value < 0 || header.value.value > MAX_ITEMS || header.value.value % 2 == 1 {
        Reject(22);
        return;
      }
      ApplyPairs(api, header.value.next, header.value.value / 2);
      error, resultLen := 0, 0;
    }

    method ApplyPairs(api: Api, start: nat, n: nat)
      requires Valid() && start <= VALUE_LEN
      modifies this, scratch
      ensures applied == old(applied) + (if api.hasSet then Settings(value[..], start, n) else [])
    {
      hide Next, Settings, PairSetting;
      ghost var s := value[..];
      var p: nat, left: nat := start, n;
      ghost var done: seq<Setting> := [];
      SettingsStop(s, start, 0);
      while left > 0
        invariant p <= VALUE_LEN
        invariant done + Settings(s, p, left) == Settings(s, start, n)
        invariant applied == old(applied) + if api.hasSet then done else []
        decreases left
      {
        SettingsStop(s, p, left);
        assert value[..VALUE_LEN] == s;
        var haveKey, k, klen := BulkNext(value, p, VALUE_LEN);
        if !haveKey {
          return;
        }
        var haveValue, v, vlen := BulkNext(value, k + klen, VALUE_LEN);
        if !haveValue {
          return;
        }
        SettingsStep(s, p, left);
        done := done + PairSetting(s[k..k + klen], s[v..v + vlen]);
        ApplyPair(api, k, klen, v, vlen);
        p, left := v + vlen, left - 1;
      }
      SettingsStop(s, p, 0);
    }

    method ApplyPair(api: Api, k: nat, klen: nat, v: nat, vlen: nat)
      requires Valid() && k + klen <= VALUE_LEN && v + vlen <= VALUE_LEN
      modifies this, scratch
      ensures applied == old(applied) +
                if api.hasSet then PairSetting(value[k..k + klen], value[v..v + vlen]) else []
    {
      hide CString;
      if 0 < klen < KEY_LEN && vlen < VALUE_LEN {
        CopyValue(v, vlen);
        if api.hasSet {
          applied := applied + [Setting(CString(value[k..k + klen]), CString(scratch[..vlen]))];
        }
      }
    }

    /** BULK_GET: answers every announced key, in order, into `value`. */
    method BulkGet(api: Api)
      requires Valid()
      modifies this, value, request, scratch
      ensures applied == old(applied)
      ensures GetOutcome(api, old(value[..]), old(scratch[..]), error, resultLen, value[..])
    {
      hide CString, ReadNumber, Stored, Answers, Encode;
      assert value[..][..VALUE_LEN - 1] == value[..VALUE_LEN - 1];
      var end := CopyRequest();
      var header := ScanNumber(request, 0, end, HALF32);
      if header.None? || header.value.value < 0 || header.value.value > MAX_ITEMS {
        Reject(22);
        return;
      }
      AnswerKeys(api, end, header.value.next, header.value.value);
    }

    method AnswerKeys(api: Api, end: nat, start: nat, count: nat)
      requires Valid() && start <= end <= VALUE_LEN && count <= MAX_ITEMS
      modifies this, value, scratch
      ensures applied == old(applied)
      ensures var answers := Answers(api, request[..end], start, count, old(scratch[..]));
              var size := |Encode(answers)|;
              if size <= VALUE_LEN then
                error == 0 && resultLen == size && value[..size] == Stored(count, answers)
              else error == 22 && resultLen == -1
    {
      hide Next, Answers, Stored, EncodeRecord, EncodeBody, Encode, Fetch;
      ghost var s := request[..end];
      ghost var answers := Answers(api, s, start, count, scratch[..]);
      ghost var done: seq<Bytes> := [];
      var hdr := Snprintf(value, 0, VALUE_LEN, Header(count));
      var p: nat, off: nat, left: nat := start, hdr, count;
      StoredHeader(count);
      while left > 0
        invariant p <= end && off <= VALUE_LEN
        invariant applied == old(applied)
        invariant answers == done + Answers(api, s, p, left, scratch[..])
        invariant value[..off] == Stored(count, done)
        decreases left
      {
        ghost var p0, scratch0 := p, scratch[..];
        var noff: int;
        ghost var b;
        p, noff, b := AnswerOne(api, end, p, off, count, done);
        AnswersAdvance(api, s, p0, left, scratch0, done, p, b, scratch[..]);
        if noff < 0 {
          TooLong(count, done + [b], Answers(api, s, p, left - 1, scratch[..]));
          Reject(22);
          return;
        }
        done, off, left := done + [b], noff, left - 1;
      }
      AnswersStep(api, s, p, 0, scratch[..]);
      assert done + [] == done;
      StoredSize(done);
      error, resultLen := 0, off;
    }

    /** One pass of the BULK_GET loop: answer the key at `start` and append the answer b. */
    method AnswerOne(api: Api, end: nat, start: nat, off: nat, count: nat, ghost done: seq<Bytes>)
      returns (p: nat, noff: int, ghost b: Bytes)
      requires Valid() && start <= end <= VALUE_LEN && off <= VALUE_LEN
      requires value[..off] == Stored(count, done)
      modifies value, scratch
      ensures p <= end
      ensures match Next(request[..end], start)
              case None => p == start && b == [] && scratch[..] == old(scratch[..])
              case Some(rec) =>
                var f := Fetch(api, rec.bytes, old(scratch[..]));
                p == rec.next && scratch[..] == f.scratch && b == f.value
      ensures if |Stored(count, done + [b])| > VALUE_LEN then noff < 0
              else 0 <= noff <= VALUE_LEN && value[..noff] == Stored(count, done + [b])
    {
      hide Next, Stored, EncodeRecord, Fetch, PutBytes;
      var vlen: nat;
      p, vlen := AnswerKey(api, end, start);
      b := scratch[..vlen];
      noff := AppendAnswer(off, vlen, count, done);
    }

    /** Append the first vlen scratch bytes to the reply. */
    method AppendAnswer(off: nat, vlen: nat, count: nat, ghost done: seq<Bytes>) returns (noff: int)
      requires Valid() && off <= VALUE_LEN && vlen < VALUE_LEN
      requires value[..off] == Stored(count, done)
      modifies value
      ensures var full := Stored(count, done + [scratch[..vlen]]);
              if |full| > VALUE_LEN then noff < 0
              else 0 <= noff <= VALUE_LEN && value[..noff] == full
    {
      hide Stored, EncodeRecord, PutBytes;
      StoredPut(count, done, scratch[..vlen]);
      noff := BulkPut(value, off, VALUE_LEN, scratch, vlen);
      if noff >= 0 {
        assert value[..noff] == value[..off] + value[off..noff];
      }
    }

    /** One pass of the BULK_GET loop up to the put: the answer is the first vlen scratch bytes. */
    method AnswerKey(api: Api, end: nat, start: nat) returns (p: nat, vlen: nat)
      requires Valid() && start <= end <= VALUE_LEN
      modifies scratch
      ensures p <= end && vlen < VALUE_LEN
      ensures match Next(request[..end], start)
              case None => p == start && vlen == 0 && scratch[..] == old(scratch[..])
              case Some(rec) =>
                var f := Fetch(api, rec.bytes, old(scratch[..]));
                p == rec.next && scratch[..] == f.scratch && scratch[..vlen] == f.value
    {
      hide Next;
      var found, k, klen := BulkNext(request, start, end);
      p, vlen := start, 0;
      if found {
        p := k + klen;
        if 0 < klen < KEY_LEN && api.get.Some? {
          var g := api.get.value(request[k..k + klen]);
          var n := Min(|g.filled|, VALUE_LEN);
          for i := 0 to n
            invariant scratch[..i] == g.filled[..i] && scratch[i..] == old(scratch[..])[i..]
          {
            scratch[i] := g.filled[i];
          }
          if g.r > 0 {
            vlen := if g.r >= VALUE_LEN then VALUE_LEN - 1 else g.r;
          }
        }
      }
    }

    /** shim_handle_param_bulk: request type 4 is a SET, any other a GET; no active module is error 14. */
    method Handle(reqType: Byte, api: Option<Api>)
      requires Valid()
      modifies this, value, request, scratch
      ensures api.None? ==> error == 14 && resultLen == -1 && applied == old(applied) && value[..] == old(value[..])
      ensures api.Some? && reqType == 4 ==>
                value[..] == old(value[..]) && SetOutcome(api.value, value[..], old(applied), error, resultLen, applied)
      ensures api.Some? && reqType != 4 ==>
                && applied == old(applied)
                && GetOutcome(api.value, old(value[..]), old(scratch[..]), error, resultLen, value[..])
    {
      hide SetOutcome, GetOutcome;
      if api.None? {
        Reject(14);
      } else if reqType == 4 {
        BulkSet(api.value);
      } else {
        BulkGet(api.value);
      }
    }

    method CopyValue(v: nat, vlen: nat)
      requires Valid() && v + vlen <= VALUE_LEN
      modifies scratch
      ensures scratch[..vlen] == value[v..v + vlen]
    {
      for j := 0 to vlen
        invariant scratch[..j] == value[v..v + j]
      {
        scratch[j] := value[v + j];
      }
    }
  }

  lemma SettingsStep(s: Bytes, p: nat, n: nat)
    requires p <= |s| && n > 0 && Next(s, p).Some? && Next(s, Next(s, p).value.next).Some?
    ensures var k, v := Next(s, p).value, Next(s, Next(s, p).value.next).value;
            Settings(s, p, n) == PairSetting(k.bytes, v.bytes) + Settings(s, v.next, n - 1)
  {
  }

  lemma SettingsStop(s: Bytes, p: nat, n: nat)
    requires p <= |s|
    ensures n == 0 || Next(s, p).None? || Next(s, Next(s, p).value.next).None? ==> Settings(s, p, n) == []
  {
  }

  lemma {:induction false} CStringIs(s: Bytes, n: nat)
    requires n <= |s| && NUL !in s[..n] && (n < |s| ==> s[n] == NUL)
    ensures CString(s) == s[..n]
    decreases n
  {
    if n > 0 {
      assert s[..n][0] == s[0];
      assert s[1..][..n - 1] == s[..n][1..];
      CStringIs(s[1..], n - 1);
    }
  }

  lemma AnswersStep(api: Api, s: Bytes, p: nat, n: nat, scratch: Bytes)
    requires p <= |s| && |scratch| == VALUE_LEN
    ensures n == 0 ==> Answers(api, s, p, n, scratch) == []
    ensures n > 0 ==>
              Answers(api, s, p, n, scratch) ==
              match Next(s, p)
              case None => [[]] + Answers(api, s, p, n - 1, scratch)
              case Some(rec) =>
                var f := Fetch(api, rec.bytes, scratch);
                [f.value] + Answers(api, s, rec.next, n - 1, f.scratch)
  {
  }

  lemma AnswersAdvance(api: Api, s: Bytes, p: nat, n: nat, scratch: Bytes,
      done: seq<Bytes>, q: nat, b: Bytes, after: Bytes)
    requires p <= |s| && q <= |s| && n > 0 && |scratch| == |after| == VALUE_LEN
    requires match Next(s, p)
             case None => q == p && b == [] && after == scratch
             case Some(rec) =>
               var f := Fetch(api, rec.bytes, scratch);
               q == rec.next && after == f.scratch && b == f.value
    ensures done + Answers(api, s, p, n, scratch) == (done + [b]) + Answers(api, s, q, n - 1, after)
  {
    AnswersStep(api, s, p, n, scratch);
  }

  // ---- What the reply buffer holds ----

  lemma {:induction false} DecLength(n: nat)
    requires n <= VALUE_LEN
    ensures 1 <= |Dec(n)| <= 5
    ensures n < 10 ==> |Dec(n)| == 1
  {
    if n >= 10 {
      assert |Dec(n)| == |Dec(n / 10)| + 1;
      if n >= 100 {
        assert |Dec(n / 10)| == |Dec(n / 100)| + 1;
        if n >= 1000 {
          assert |Dec(n / 100)| == |Dec(n / 1000)| + 1;
          if n >= 10000 {
            assert |Dec(n / 1000)| == |Dec(n / 10000)| + 1;
          }
        }
      }
    }
  }

  lemma StoredHeader(count: nat)
    requires count <= MAX_ITEMS
    ensures Stored(count, []) == Header(count) && |Header(count)| < VALUE_LEN
  {
    DecLength(count);
    assert Header(count) + EncodeBody([]) == Header(count);
  }

  /** Putting one more record turns Stored(done) into Stored(done + [b]), when it fits;
      after a damaged record nothing fits. */
  lemma StoredPut(count: nat, done: seq<Bytes>, b: Bytes)
    requires |Stored(count, done)| <= VALUE_LEN
    ensures var off := |Stored(count, done)|;
            var end := off + |EncodeRecord(b)|;
            && |Stored(count, done + [b])| == end
            && (end <= VALUE_LEN ==> Stored(count, done + [b]) == Stored(count, done) + PutBytes(b, end, VALUE_LEN))
  {
    hide EncodeRecord, EncodeBody, Header;
    BodyLast(done, b);
    RecordNotEmpty(b);
    var plain := Header(count) + EncodeBody(done);
    var more := Header(count) + EncodeBody(done + [b]);
    assert more == plain + EncodeRecord(b);
    if Damaged(count, done + [b]) && |more| <= VALUE_LEN {
      EmptyRecord();
      assert more[..|more| - 1] == plain + Dec(0);
    }
  }

  lemma RecordNotEmpty(b: Bytes)
    ensures |EncodeRecord(b)| > 0
  {
  }

  lemma EmptyRecord()
    ensures EncodeRecord([]) == Dec(0) + [NL] && |Dec(0)| == 1
  {
  }

  lemma BodyLast(items: seq<Bytes>, b: Bytes)
    ensures EncodeBody(items + [b]) == EncodeBody(items) + EncodeRecord(b)
  {
    var all := items + [b];
    assert all[..|all| - 1] == items && all[|all| - 1] == b;
  }

  lemma {:induction false} BodyLongerWithMore(items: seq<Bytes>, more: seq<Bytes>)
    ensures |EncodeBody(items + more)| >= |EncodeBody(items)|
    decreases |more|
  {
    if more == [] {
      assert items + more == items;
    } else {
      var n := |more| - 1;
      BodyLongerWithMore(items, more[..n]);
      BodyLast(items + more[..n], more[n]);
      assert items + more == (items + more[..n]) + [more[n]];
    }
  }

  lemma StoredSize(values: seq<Bytes>)
    ensures |Stored(|values|, values)| == |Encode(values)|
  {
  }

  lemma TooLong(count: nat, done: seq<Bytes>, rest: seq<Bytes>)
    requires |Stored(count, done)| > VALUE_LEN && count == |done| + |rest|
    ensures |Encode(done + rest)| > VALUE_LEN
  {
    BodyLongerWithMore(done, rest);
  }

  // ---- What the client gets ----

  /** A successful BULK_GET reply parses to exactly its answers unless it ends with an empty
      record on the very last byte of the buffer, where the newline has become a NUL. */
  lemma ReplyDecodesIff(answers: seq<Bytes>)
    requires |answers| <= MAX_ITEMS && |Encode(answers)| <= VALUE_LEN
    requires forall b :: b in answers ==> |b| < VALUE_LEN
    ensures Decode(Stored(|answers|, answers)) == Some(answers) <==> !Damaged(|answers|, answers)
  {
    if Damaged(|answers|, answers) {
      DamagedReplyFails(answers);
    } else {
      DecodeEncode(answers, []);
      assert Encode(answers) + [] == Encode(answers);
    }
  }

  lemma DamagedReplyFails(answers: seq<Bytes>)
    requires |answers| <= MAX_ITEMS && Damaged(|answers|, answers)
    requires forall b :: b in answers ==> |b| < VALUE_LEN
    ensures Decode(Stored(|answers|, answers)) == None
  {
    hide EncodeBody, EncodeRecord, Next, Records, ReadNumber, Dec, Has;
    var done := answers[..|answers| - 1];
    var head, body := Header(|answers|), EncodeBody(done);
    assert answers == done + [[]];
    BodyLast(done, []);
    EmptyRecord();
    var s := Stored(|answers|, answers);
    assert s == head + body + (Dec(0) + [NUL]);
    HasParts(s, 0, head + body, Dec(0) + [NUL]);
    HasWhole(s);
    HasParts(s, 0, head, body);
    ReadPrinted(s, 0, |answers|, HALF32);
    HasInBounds(s, |head| + |body|, Dec(0) + [NUL]);
    NextOfDamaged(s, |head| + |body|);
    RecordsRunOut(s, |head|, done, 1);
  }

  lemma HasWhole(s: Bytes)
    ensures Has(s, 0, s)
  {
    assert s[0..|s|] == s;
  }

  lemma NextOfDamaged(s: Bytes, p: nat)
    requires p + 2 == |s| && Has(s, p, Dec(0) + [NUL])
    ensures Next(s, p) == None
  {
    assert s[p] == s[p..p + 2][0] == DIGIT0 && s[p + 1] == s[p..p + 2][1] == NUL;
    DigitsEndIs(s, p, p + 1);
  }

  lemma {:induction false} RecordsRunOut(s: Bytes, p: nat, items: seq<Bytes>, extra: nat)
    requires extra > 0 && forall b :: b in items ==> |b| < HALF64
    requires Has(s, p, EncodeBody(items)) && p + |EncodeBody(items)| <= |s|
    requires Next(s, p + |EncodeBody(items)|) == None
    ensures Records(s, p, |items| + extra) == None
    decreases |items|
  {
    hide EncodeRecord, EncodeBody, Next, Has;
    if items == [] {
      EmptyBody();
    } else {
      var q := FirstRecord(s, p, items);
      RecordsRunOut(s, q, items[1..], extra);
    }
  }

  lemma EmptyBody()
    ensures EncodeBody([]) == []
  {
  }

  /** What the module holds under a key, if its get_param reports a length it really wrote. */
  function Lookup(api: Api, key: Bytes): Bytes {
    if UsableKey(key) && api.get.Some? then
      var g := api.get.value(key);
      if 0 < g.r <= |g.filled| then g.filled[..g.r] else []
    else []
  }

  predicate Honest(api: Api, key: Bytes) {
    api.get.Some? ==> var g := api.get.value(key); g.r <= |g.filled| < VALUE_LEN
  }

  /** On a well-formed request there is one answer per key, in key order, each the module's
      value for that key; bytes left in the scratch buffer never leak into an answer. */
  lemma {:induction false} AnswersAreLookups(api: Api, s: Bytes, p: nat, keys: seq<Bytes>, scratch: Bytes)
    requires |scratch| == VALUE_LEN && forall k :: k in keys ==> |k| < HALF64 && Honest(api, k)
    requires Has(s, p, EncodeBody(keys)) && p <= |s|
    ensures var r := Answers(api, s, p, |keys|, scratch);
            |r| == |keys| && forall i :: 0 <= i < |keys| ==> r[i] == Lookup(api, keys[i])
    decreases |keys|
  {
    hide EncodeRecord, EncodeBody, Next, Fetch, Lookup, Has, Honest;
    if keys != [] {
      var q := FirstRecord(s, p, keys);
      var f := Fetch(api, keys[0], scratch);
      FetchIsLookup(api, keys[0], scratch);
      AnswersAreLookups(api, s, q, keys[1..], f.scratch);
    }
  }

  lemma FetchIsLookup(api: Api, key: Bytes, scratch: Bytes)
    requires |scratch| == VALUE_LEN && Honest(api, key)
    ensures Fetch(api, key, scratch).value == Lookup(api, key)
  {
  }

  // ---- What the module is told ----

  /** The calls that a list key, value, key, value, ... asks for. */
  function PairsOf(items: seq<Bytes>): seq<Setting>
    decreases |items|
  {
    if |items| < 2 then [] else PairSetting(items[0], items[1]) + PairsOf(items[2..])
  }

  /** BULK_SET on a well-formed request applies its pairs one by one, in order. */
  lemma {:induction false} SettingsArePairs(s: Bytes, p: nat, items: seq<Bytes>)
    requires |items| % 2 == 0 && forall b :: b in items ==> |b| < HALF64
    requires Has(s, p, EncodeBody(items)) && p <= |s|
    ensures Settings(s, p, |items| / 2) == PairsOf(items)
    decreases |items|
  {
    hide EncodeRecord, EncodeBody, Next, PairSetting, Has;
    if items != [] {
      var q := FirstRecord(s, p, items);
      var r := FirstRecord(s, q, items[1..]);
      assert items[1..][1..] == items[2..];
      SettingsArePairs(s, r, items[2..]);
    }
  }

  /** A client's well-formed SET message, with anything after it in the buffer, makes exactly
      the calls of its pairs. */
  lemma SetRequestAppliesPairs(items: seq<Bytes>, rest: Bytes)
    requires |items| % 2 == 0 && |items| < HALF32 && forall b :: b in items ==> |b| < HALF64
    ensures var s := Encode(items) + rest;
            var header := ReadNumber(s, 0, HALF32);
            && header.Some? && header.value.value == |items|
            && Settings(s, header.value.next, |items| / 2) == PairsOf(items)
  {
    hide EncodeBody, Encode, Settings, ReadNumber;
    var s := Encode(items) + rest;
    HasParts(s, 0, Encode(items), rest);
    HasWhole(s);
    MessageHeader(s, items);
    SettingsArePairs(s, |Header(|items|)|, items);
  }

  /** Pair i: a key that fits the key buffer, a value that fits its buffer, and no NULs in either. */
  predicate PlainPair(items: seq<Bytes>, i: nat)
    requires 2 * i + 1 < |items|
  {
    && 0 < |items[2 * i]| < KEY_LEN && NUL !in items[2 * i]
    && |items[2 * i + 1]| < VALUE_LEN && NUL !in items[2 * i + 1]
  }

  predicate PlainPairs(items: seq<Bytes>) {
    forall i :: 0 <= i < |items| / 2 ==> PlainPair(items, i)
  }

  /** A plain pair is passed on as it is: its first item as the key, its second as the value. */
  lemma PlainPairIsCalled(items: seq<Bytes>)
    requires |items| >= 2 && PlainPair(items, 0)
    ensures PairSetting(items[0], items[1]) == [Setting(items[0], items[1])]
  {
    hide CString;
    CStringIs(items[0], |items[0]|);
    CStringIs(items[1], |items[1]|);
    assert items[0][..|items[0]|] == items[0] && items[1][..|items[1]|] == items[1];
  }

  lemma {:induction false} PlainPairsAreCalled(items: seq<Bytes>)
    requires |items| % 2 == 0 && PlainPairs(items)
    ensures |PairsOf(items)| == |items| / 2
    ensures forall i :: 0 <= i < |items| / 2 ==> PairsOf(items)[i] == Setting(items[2 * i], items[2 * i + 1])
    decreases |items|
  {
    hide PairSetting;
    if items != [] {
      var rest := items[2..];
      assert PlainPair(items, 0);
      PlainPairIsCalled(items);
      forall i | 0 <= i < |rest| / 2
        ensures PlainPair(rest, i)
      {
        assert PlainPair(items, i + 1);
        assert rest[2 * i] == items[2 * (i + 1)] && rest[2 * i + 1] == items[2 * (i + 1) + 1];
      }
      PlainPairsAreCalled(rest);
      forall i | 0 <= i < |items| / 2
        ensures PairsOf(items)[i] == Setting(items[2 * i], items[2 * i + 1])
      {
        if i > 0 {
          assert PairsOf(items)[i] == PairsOf(rest)[i - 1];
          assert items[2 * i] == rest[2 * (i - 1)] && items[2 * i + 1] == rest[2 * (i - 1) + 1];
        }
      }
    }
  }

  /** A pair whose key is empty or does not fit the key buffer makes no call, wherever it stands. */
  lemma {:induction false} UnusableKeysAreSkipped(items: seq<Bytes>, key: Bytes, value: Bytes, more: seq<Bytes>)
    requires |items| % 2 == 0 && (key == [] || |key| >= KEY_LEN)
    ensures PairsOf(items + [key, value] + more) == PairsOf(items + more)
    decreases |items|
  {
    var all := items + [key, value] + more;
    if items == [] {
      assert all[0] == key && all[2..] == more == items + more;
    } else {
      UnusableKeysAreSkipped(items[2..], key, value, more);
      assert all[2..] == items[2..] + [key, value] + more;
      assert (items + more)[2..] == items[2..] + more;
    }
  }

  /** The whole of a SET exchange: any message of fewer than 2^31 items, with anything after it in
      the buffer, is refused with no call made if its items are odd or too many, and otherwise
      makes exactly the calls of its pairs. */
  lemma SetExchange(api: Api, items: seq<Bytes>, rest: Bytes, before: seq<Setting>,
      error: int, resultLen: int, after: seq<Setting>)
    requires |items| < HALF32 && forall b :: b in items ==> |b| < HALF64
    requires SetOutcome(api, Encode(items) + rest, before, error, resultLen, after)
    ensures if |items| % 2 == 0 && |items| <= MAX_ITEMS then
              && error == 0 && resultLen == 0
              && after == before + if api.hasSet then PairsOf(items) else []
            else error == 22 && resultLen == -1 && after == before
    ensures api.hasSet && |items| % 2 == 0 && |items| <= MAX_ITEMS && PlainPairs(items) ==>
              && |after| == |before| + |items| / 2
              && forall i :: 0 <= i < |items| / 2 ==> after[|before| + i] == Setting(items[2 * i], items[2 * i + 1])
  {
    hide EncodeBody, Encode, Settings, ReadNumber, PairsOf, PlainPairs;
    var s := Encode(items) + rest;
    HasParts(s, 0, Encode(items), rest);
    HasWhole(s);
    MessageHeader(s, items);
    if |items| % 2 == 0 {
      SetRequestAppliesPairs(items, rest);
      if PlainPairs(items) {
        PlainPairsAreCalled(items);
      }
    }
  }

  /** A client's GET message whose keys contain no NUL is read whole, and answered key by key. */
  lemma GetRequestAnswersKeys(api: Api, keys: seq<Bytes>, junk: Bytes, scratch: Bytes)
    requires |keys| <= MAX_ITEMS && |scratch| == VALUE_LEN
    requires forall k :: k in keys ==> NUL !in k && |k| < HALF64 && Honest(api, k)
    ensures var s := CString(Encode(keys) + [NUL] + junk);
            && s == Encode(keys)
            && ReadNumber(s, 0, HALF32) == Some(Number(|keys|, |Header(|keys|)|))
            && Answers(api, s, |Header(|keys|)|, |keys|, scratch) == Lookups(api, keys)
  {
    hide EncodeBody, Answers, Encode, ReadNumber;
    var e := Encode(keys);
    var all := e + [NUL] + junk;
    EncodeHasNoNul(keys);
    assert all[..|e|] == e;
    CStringIs(all, |e|);
    HasWhole(e);
    MessageHeader(e, keys);
    AnswersAreLookups(api, e, |Header(|keys|)|, keys, scratch);
  }

  /** What the module holds under each of the keys. */
  function Lookups(api: Api, keys: seq<Bytes>): (r: seq<Bytes>)
    ensures |r| == |keys| && forall i :: 0 <= i < |keys| ==> r[i] == Lookup(api, keys[i])
  {
    seq(|keys|, i requires 0 <= i < |keys| => Lookup(api, keys[i]))
  }

  lemma LookupsAreShort(api: Api, keys: seq<Bytes>)
    requires forall k :: k in keys ==> Honest(api, k)
    ensures forall b :: b in Lookups(api, keys) ==> |b| < VALUE_LEN
  {
    forall i | 0 <= i < |keys|
      ensures |Lookup(api, keys[i])| < VALUE_LEN
    {
      assert keys[i] in keys;
    }
  }

  lemma NulAfter(e: Bytes, before: Bytes)
    requires e + [NUL] <= before
    ensures before[..|e|] == e && before[|e|] == NUL && before == e + [NUL] + before[|e| + 1..]
  {
    assert before[..|e| + 1] == e + [NUL];
  }

  lemma FrontAgrees(before: Bytes, n: nat)
    requires |before| == VALUE_LEN && n < VALUE_LEN
    ensures before[..VALUE_LEN - 1][..n] == before[..n]
    ensures n < VALUE_LEN - 1 ==> before[..VALUE_LEN - 1][n] == before[n]
  {
  }

  /** The request copy stops one byte short of the buffer, which loses nothing of a message that
      ends with its NUL inside it. */
  lemma RequestText(e: Bytes, before: Bytes)
    requires |before| == VALUE_LEN && e + [NUL] <= before && NUL !in e
    ensures CString(before[..VALUE_LEN - 1]) == CString(e + [NUL] + before[|e| + 1..]) == e
  {
    hide CString;
    NulAfter(e, before);
    CStringIs(before, |e|);
    FrontAgrees(before, |e|);
    CStringIs(before[..VALUE_LEN - 1], |e|);
  }

  /** The whole of a GET exchange: from a buffer that starts with a request and its NUL, the
      handler succeeds exactly when the encoded values fit the buffer, and the client then parses
      the reply to the module's values, key by key, exactly when the reply does not end with an
      empty record on the last byte. */
  lemma GetExchange(api: Api, keys: seq<Bytes>, before: Bytes, scratch: Bytes, error: int, resultLen: int, after: Bytes)
    requires |keys| <= MAX_ITEMS && |before| == |scratch| == |after| == VALUE_LEN
    requires forall k :: k in keys ==> NUL !in k && Honest(api, k)
    requires Encode(keys) + [NUL] <= before
    requires GetOutcome(api, before, scratch, error, resultLen, after)
    ensures error == (if |Encode(Lookups(api, keys))| <= VALUE_LEN then 0 else 22)
    ensures error == 0 ==> 0 <= resultLen <= VALUE_LEN
    ensures error == 0 ==>
              (Decode(after[..resultLen]) == Some(Lookups(api, keys)) <==> !Damaged(|keys|, Lookups(api, keys)))
  {
    hide EncodeBody, Answers, Encode, ReadNumber, CString, Lookups, Lookup, Honest, Stored, Damaged, Decode;
    var values := Lookups(api, keys);
    EncodeHasNoNul(keys);
    RequestText(Encode(keys), before);
    ItemsAreShorter(keys);
    GetRequestAnswersKeys(api, keys, before[|Encode(keys)| + 1..], scratch);
    LookupsAreShort(api, keys);
    if |Encode(values)| <= VALUE_LEN {
      ReplyDecodesIff(values);
    }
  }

  lemma ItemsAreShorter(items: seq<Bytes>)
    ensures forall b :: b in items ==> |b| < |Encode(items)|
  {
    forall b | b in items
      ensures |b| < |Encode(items)|
    {
      var i :| 0 <= i < |items| && items[i] == b;
      BodyLast(items[..i], b);
      assert items[..i + 1] == items[..i] + [b];
      BodyLongerWithMore(items[..i + 1], items[i + 1..]);
      assert items == items[..i + 1] + items[i + 1..];
    }
  }

  /** Such a reply does occur: a module that answers one key with 65526 bytes and a second with
      nothing has it sent, and the client cannot parse it. */
  lemma DamagedOccurs(x: Byte)
    ensures var get := (key: Bytes) => if key == [1] then GetResult(65526, Repeat(x, 65526)) else GetResult(0, []);
            var api, keys := Api(Some(get), true), [[1], [2]];
            && (forall k :: k in keys ==> NUL !in k && Honest(api, k))
            && Lookups(api, keys) == [Repeat(x, 65526), []]
            && Damaged(|keys|, Lookups(api, keys)) && |Encode(Lookups(api, keys))| == VALUE_LEN
            && Decode(Stored(|keys|, Lookups(api, keys))) == None
  {
    hide Decode, Stored;
    var get := (key: Bytes) => if key == [1] then GetResult(65526, Repeat(x, 65526)) else GetResult(0, []);
    var api, keys: seq<Bytes> := Api(Some(get), true), [[1], [2]];
    var long := Repeat(x, 65526);
    var values: seq<Bytes> := [long, []];
    assert Lookup(api, [1]) == long by {
      assert long[..65526] == long;
    }
    assert Lookups(api, keys) == values;
    DamagedSize(long);
    DamagedReplyFails(values);
  }

  lemma DamagedSize(long: Bytes)
    requires |long| == 65526
    ensures Damaged(2, [long, []]) && |Encode([long, []])| == VALUE_LEN
  {
    var values: seq<Bytes> := [long, []];
    assert values == [long] + [[]];
    BodyLast([long], []);
    BodyLast([], long);
    assert [long] == [] + [long];
    EmptyBody();
    EmptyRecord();
    DecLength(65526);
    DecLength(2);
    assert |Dec(65526)| == 5 && |Dec(2)| == 1;
  }

  lemma {:induction false} BodyHasNoNul(items: seq<Bytes>)
    requires forall b :: b in items ==> NUL !in b
    ensures NUL !in EncodeBody(items)
    decreases |items|
  {
    if items != [] {
      var n := |items| - 1;
      BodyHasNoNul(items[..n]);
      assert items[n] in items;
      DecIsDigits(|items[n]|);
      forall x | x in EncodeRecord(items[n])
        ensures x != NUL
      {
      }
    }
  }

  lemma EncodeHasNoNul(items: seq<Bytes>)
    requires forall b :: b in items ==> NUL !in b
    ensures NUL !in Encode(items)
  {
    BodyHasNoNul(items);
    DecIsDigits(|items|);
  }
}
