/**
 * The per-class misc device: opening it adds a request with the sentinel
 * value, releasing it removes the request, reading it yields the class's
 * aggregate, and writing it parses a new request value (4 raw bytes, or a
 * hexadecimal numeral of at most 11 bytes) and updates the request.
 */
module QosDevice {
  import opened Common
  import opened QosClasses
  import opened QosLedger
  import opened QosEngine

  /**
   * The minors the misc devices received: the reserved class never registers
   * a device (its zero-filled minor is 0).  Every other class holds a
   * dynamically allocated minor, assumed non-zero here.
   */
  ghost predicate DeviceTable(minors: seq<int>) {
    && |minors| == NumClasses
    && minors[Reserved] == 0
    && forall c :: 0 < c < NumClasses ==> minors[c] != 0
  }

  /** `find_pm_qos_object_by_minor`: the first class whose device has `minor`, or -1. */
  method FindByMinor(minors: seq<int>, minor: int) returns (c: int)
    requires |minors| == NumClasses
    ensures -1 <= c < NumClasses
    ensures c == -1 <==> minor !in minors
    ensures c >= 0 ==> minors[c] == minor && forall d :: 0 <= d < c ==> minors[d] != minor
  {
    c := 0;
    while c < NumClasses
      invariant 0 <= c <= NumClasses
      invariant forall d :: 0 <= d < c ==> minors[d] != minor
    {
      if minor == minors[c] {
        return;
      }
      c := c + 1;
    }
    c := -1;
  }

  /**
   * `pm_qos_power_open` on the device node with `minor`; `h` is the freshly
   * zero-allocated handle.  An unknown minor fails with EPERM; otherwise the
   * handle is added, with the sentinel value, to the first class whose
   * device has the minor.  The model assumes no device received minor 0:
   * the reserved class's zero-filled minor would then match first and the
   * request would be added to a class without a list head.
   */
  method Open(s: Engine, minors: seq<int>, minor: int, h: HandleId) returns (r: Step, ret: Result<HandleId>)
    requires Valid(s) && DeviceTable(minors) && minor != 0 && h !in s.active
    ensures Valid(r.engine)
    ensures ret.Ok? <==> minor in minors
    ensures ret.Err? ==> ret.errno == EPERM && r == Step(s, None)
    ensures ret.Ok? ==>
              && ret.value == h
              && h in r.engine.active
              && minors[r.engine.active[h]] == minor
              && (forall d :: 0 <= d < r.engine.active[h] ==> minors[d] != minor)
              && r == AddRequest(s, h, r.engine.active[h], Sentinel)
  {
    var c := FindByMinor(minors, minor);
    if c >= 0 {
      r := AddRequest(s, h, c, Sentinel);
      ret := Ok(h);
    } else {
      r := Step(s, None);
      ret := Err(EPERM);
    }
  }

  /**
   * `pm_qos_power_release`: removes the file's request.  The handle is
   * inactive afterwards, its entry is gone from its class's ledger, every
   * other handle keeps its class and entry, and the chain is notified as in
   * `update_target`; a NULL or inactive handle changes nothing.
   */
  function Release(s: Engine, h: Option<HandleId>): (r: Step)
    requires Valid(s)
    ensures Valid(r.engine)
    ensures h.Some? ==> h.value !in r.engine.active
    ensures forall g :: g in r.engine.active <==> g in s.active && h != Some(g)
    ensures h.None? || h.value !in s.active ==> r == Step(s, None)
    ensures h.Some? && h.value in s.active ==>
              var c := s.active[h.value];
              && r.engine.active == s.active - {h.value}
              && Ledger(r.engine.lists[c]) == Ledger(s.lists[c]) - {h.value}
              && OnlyClassChanged(s, r.engine, c)
              && NotifiedOnChange(s, r, c)
  {
    var r := RemoveRequest(s, h);
    assert h.Some? && h.value in s.active ==> r.engine.active == s.active - {h.value};
    r
  }

  /**
   * The value `pm_qos_power_read` hands back: EINVAL without an active
   * request, else the aggregate recomputed from the list, which is the
   * cached target.
   */
  function PowerRead(s: Engine, h: Option<HandleId>): (r: Result<Int32>)
    requires Valid(s)
    ensures r.Err? <==> h.None? || h.value !in s.active
    ensures r.Err? ==> r.errno == EINVAL
    ensures r.Ok? ==> r.value == s.targets[s.active[h.value]]
    ensures r.Ok? ==> IsAggregate(s.classes[s.active[h.value]], s.lists[s.active[h.value]], r.value)
  {
    if h.None? || h.value !in s.active then Err(EINVAL)
    else
      var c := s.active[h.value];
      AggregateIsGetValue(s.classes[c], s.lists[c], s.targets[c]);
      Ok(GetValue(s.classes[c], s.lists[c]))
  }

  // ---- The write encodings ----

  const Newline: Byte := 10

  /** The bytes of `s32` value `v` as a little-endian ARM core stores them. */
  function EncodeInt32(v: Int32): (b: seq<Byte>)
    ensures |b| == 4
  {
    var u := v % 0x1_0000_0000;
    [u % 0x100, (u / 0x100) % 0x100, (u / 0x1_0000) % 0x100, u / 0x100_0000]
  }

  /** The `s32` a little-endian load of four bytes yields. */
  function DecodeInt32(b: seq<Byte>): Int32
    requires |b| == 4
  {
    ToInt32(LittleEndian(b))
  }

  function LittleEndian(b: seq<Byte>): (u: Uint32)
    requires |b| == 4
  {
    b[0] as int + 0x100 * b[1] as int + 0x1_0000 * b[2] as int + 0x100_0000 * b[3] as int
  }

  lemma DecodeEncode(v: Int32)
    ensures DecodeInt32(EncodeInt32(v)) == v
  {
    var u := v % 0x1_0000_0000;
    var b := EncodeInt32(v);
    assert LittleEndian(b) == u by {
      assert u == u % 0x100 + 0x100 * (u / 0x100);
      var u1 := u / 0x100;
      assert u1 == u1 % 0x100 + 0x100 * (u1 / 0x100);
      var u2 := u1 / 0x100;
      assert u2 / 0x100 == u / 0x100_0000;
      assert u2 == u2 % 0x100 + 0x100 * (u2 / 0x100);
      assert u2 == u / 0x1_0000;
    }
  }

  lemma EncodeDecode(b: seq<Byte>)
    requires |b| == 4
    ensures EncodeInt32(DecodeInt32(b)) == b
  {
    var u := LittleEndian(b);
    assert DecodeInt32(b) % 0x1_0000_0000 == u;
    ByteDigits(b[0], b[1], b[2], b[3]);
    assert b == [b[0], b[1], b[2], b[3]];
  }

  /** The base-256 digits of a four-byte little-endian number are its bytes. */
  lemma ByteDigits(b0: Byte, b1: Byte, b2: Byte, b3: Byte)
    ensures var u := b0 + 0x100 * b1 + 0x1_0000 * b2 + 0x100_0000 * b3;
            && u % 0x100 == b0
            && (u / 0x100) % 0x100 == b1
            && (u / 0x1_0000) % 0x100 == b2
            && u / 0x100_0000 == b3
  {
    var u := b0 + 0x100 * b1 + 0x1_0000 * b2 + 0x100_0000 * b3;
    assert u / 0x100 == b1 + 0x100 * b2 + 0x1_0000 * b3;
    assert u / 0x1_0000 == b2 + 0x100 * b3;
  }

  /** The C string of a buffer: the bytes before the first NUL. */
  function CString(b: seq<Byte>): (r: seq<Byte>)
    ensures r <= b && 0 !in r
    ensures |r| < |b| ==> b[|r|] == 0
  {
    if b == [] || b[0] == 0 then [] else [b[0]] + CString(b[1..])
  }

  predicate IsHexDigit(x: Byte) {
    '0' as int <= x <= '9' as int || 'a' as int <= x <= 'f' as int || 'A' as int <= x <= 'F' as int
  }

  function DigitValue(x: Byte): (d: nat)
    requires IsHexDigit(x)
    ensures d < 16
  {
    if x <= '9' as int then x - '0' as int
    else if x <= 'F' as int then x - 'A' as int + 10
    else x - 'a' as int + 10
  }

  /** The number a non-empty string of hex digits denotes. */
  function HexValue(s: seq<Byte>): nat
    requires forall i :: 0 <= i < |s| ==> IsHexDigit(s[i])
  {
    if s == [] then 0 else 16 * HexValue(s[..|s| - 1]) + DigitValue(s[|s| - 1])
  }

  /**
   * `strict_strtoul(s, 16, ...)` on a 32-bit core: the C string must be a
   * non-empty run of hex digits, optionally followed by one newline; the
   * value wraps modulo 2^32.
   */
  function StrictStrtoul16(s: seq<Byte>): (r: Option<Uint32>)
    ensures r.Some? ==> 0 < |CString(s)|
  {
    var digits := StripNewline(CString(s));
    if IsNumeral(digits) then Some(HexValue(digits) % 0x1_0000_0000) else None
  }

  /** The text without one trailing newline, if it has one. */
  function StripNewline(t: seq<Byte>): (r: seq<Byte>)
    ensures r <= t && |t| - 1 <= |r|
  {
    if |t| > 0 && t[|t| - 1] == Newline then t[..|t| - 1] else t
  }

  /** A non-empty run of hex digits. */
  predicate IsNumeral(t: seq<Byte>) {
    |t| > 0 && forall i :: 0 <= i < |t| ==> IsHexDigit(t[i])
  }

  /**
   * The parsing half of `pm_qos_power_write`: a 4-byte write is a raw `s32`;
   * a write of at most 11 bytes is a hex numeral, where an 11-byte write
   * must end in a newline; anything else is rejected.
   */
  function ParseWrite(buf: seq<Byte>): (r: Option<Int32>)
    ensures |buf| == 4 ==> r == Some(DecodeInt32(buf))
    ensures |buf| > 11 ==> r.None?
    ensures |buf| == 11 && buf[10] != Newline ==> r.None?
    ensures |buf| != 4 && r.Some? ==>
              && StrictStrtoul16(AsciiPart(buf)).Some?
              && r.value == ToInt32(StrictStrtoul16(AsciiPart(buf)).value)
    ensures (&& |buf| != 4 && |buf| <= 11 && (|buf| == 11 ==> buf[10] == Newline)
             && StrictStrtoul16(AsciiPart(buf)).Some?) ==> r.Some?
  {
    if |buf| == 4 then Some(DecodeInt32(buf))
    else if |buf| <= 11 then
      if |buf| > 10 && buf[10] != Newline then None
      else
        match StrictStrtoul16(AsciiPart(buf))
        case None => None
        case Some(u) => Some(ToInt32(u))
    else None
  }

  /** The bytes of a short write that reach the hex parser (an 11th byte is the newline). */
  function AsciiPart(buf: seq<Byte>): seq<Byte> {
    if |buf| > 10 then buf[..10] else buf
  }

  /**
   * `pm_qos_power_write`: a payload that does not parse fails with EINVAL
   * and changes nothing; otherwise the file's request is updated with the
   * value and the whole count is consumed.
   */
  function PowerWrite(s: Engine, h: Option<HandleId>, buf: seq<Byte>): (r: (Step, Result<nat>))
    requires Valid(s)
    ensures Valid(r.0.engine)
    ensures ParseWrite(buf).None? <==> r.1.Err?
    ensures r.1.Err? ==> r.1.errno == EINVAL && r.0 == Step(s, None)
    ensures r.1.Ok? ==> r.1.value == |buf| && r.0 == UpdateRequest(s, h, ParseWrite(buf).value)
  {
    match ParseWrite(buf)
    case None => (Step(s, None), Err(EINVAL))
    case Some(v) => (UpdateRequest(s, h, v), Ok(|buf|))
  }

  /** The lower-case hexadecimal numeral of `u`, as `printf("%x")` writes it. */
  function HexText(u: nat): (t: seq<Byte>)
    ensures |t| > 0
    ensures forall i :: 0 <= i < |t| ==> IsHexDigit(t[i]) && t[i] != 0 && t[i] != Newline
  {
    var d := u % 16;
    var c: Byte := if d < 10 then '0' as int + d else 'a' as int + d - 10;
    if u < 16 then [c] else HexText(u / 16) + [c]
  }

  lemma {:induction false} HexTextValue(u: nat)
    ensures HexValue(HexText(u)) == u
  {
    var t := HexText(u);
    assert t[..|t| - 1] == if u < 16 then [] else HexText(u / 16);
    if u >= 16 {
      HexTextValue(u / 16);
    }
  }

  lemma {:induction false} HexTextLength(u: nat, n: nat)
    requires u < Pow16(n) && n > 0
    ensures |HexText(u)| <= n
  {
    if u >= 16 {
      HexTextLength(u / 16, n - 1);
    }
  }

  function Pow16(n: nat): nat {
    if n == 0 then 1 else 16 * Pow16(n - 1)
  }

  lemma CStringOfText(t: seq<Byte>)
    requires forall i :: 0 <= i < |t| ==> t[i] != 0
    ensures CString(t) == t
  {
    if t != [] {
      CStringOfText(t[1..]);
    }
  }

  /**
   * Writing the hex numeral of a 32-bit value, with or without a trailing
   * newline, requests that value reinterpreted as `s32` -- unless the text
   * is exactly four bytes long, which the write always reads as raw binary.
   */
  lemma ParseHexText(u: Uint32, newline: bool)
    requires |HexText(u)| + (if newline then 1 else 0) != 4
    ensures ParseWrite(HexText(u) + (if newline then [Newline] else [])) == Some(ToInt32(u))
  {
    var buf := HexText(u) + (if newline then [Newline] else []);
    assert Pow16(8) == 0x1_0000_0000;
    HexTextLength(u, 8);
    assert AsciiPart(buf) == buf;
    StrtoulHexText(u, newline);
  }

  /** `strict_strtoul` reads back the hex numeral of a 32-bit value, newline or not. */
  lemma StrtoulHexText(u: Uint32, newline: bool)
    ensures StrictStrtoul16(HexText(u) + (if newline then [Newline] else [])) == Some(u)
  {
    var t := HexText(u);
    HexTextValue(u);
    StrtoulDigits(t, newline, u);
  }

  /** `strict_strtoul` accepts a run of hex digits with or without one trailing newline. */
  lemma StrtoulDigits(t: seq<Byte>, newline: bool, u: Uint32)
    requires IsNumeral(t) && HexValue(t) == u
    ensures StrictStrtoul16(t + (if newline then [Newline] else [])) == Some(u)
  {
    var buf := t + (if newline then [Newline] else []);
    assert forall i :: 0 <= i < |buf| ==> buf[i] != 0;
    CStringOfText(buf);
    assert StripNewline(buf) == t by {
      if newline {
        assert buf[..|buf| - 1] == t;
      } else {
        assert buf[|buf| - 1] != Newline;
      }
    }
  }

  /** A numeral of `n` digits is below 16 to the power `n`. */
  lemma {:induction false} HexValueBound(t: seq<Byte>)
    requires forall i :: 0 <= i < |t| ==> IsHexDigit(t[i])
    ensures HexValue(t) < Pow16(|t|)
  {
    if t != [] {
      HexValueBound(t[..|t| - 1]);
    }
  }

  /**
   * A four-character hex numeral is read as raw bytes, never as the number
   * it spells: "1234" requests 0x3433_3231, not 0x1234.
   */
  lemma FourDigitTextIsBinary(t: seq<Byte>)
    requires |t| == 4 && IsNumeral(t)
    ensures ParseWrite(t) == Some(DecodeInt32(t))
    ensures HexValue(t) < 0x1_0000
    ensures DecodeInt32(t) != HexValue(t)
  {
    HexValueBound(t);
    assert 0x3000_0000 <= LittleEndian(t) < 0x8000_0000;
  }

  /** Writing back the four bytes a read returned requests the value that was read. */
  lemma ReadThenWriteBinary(s: Engine, h: Option<HandleId>)
    requires Valid(s) && PowerRead(s, h).Ok?
    ensures ParseWrite(EncodeInt32(PowerRead(s, h).value)) == Some(PowerRead(s, h).value)
  {
    DecodeEncode(PowerRead(s, h).value);
  }
}
