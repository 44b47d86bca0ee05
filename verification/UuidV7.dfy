/** Version 7 identifiers built from a millisecond timestamp and ten bytes of entropy. */
module UuidV7 {

  import opened Encoding
  import opened Wrappers

  type Byte = n: int | 0 <= n < 256 witness 0

  const MAX_TIMESTAMP := 0xffff_ffff_ffff

  // ---------------------------------------------------------------- bytes and digits

  /** The low `n` bytes of a number, most significant first. */
  function TimeBytes(t: nat, n: nat): (r: seq<Byte>)
    ensures |r| == n
  {
    if n == 0 then [] else TimeBytes(t / 256, n - 1) + [t % 256]
  }

  function Value(bytes: seq<Byte>): nat {
    if bytes == [] then 0 else Value(bytes[..|bytes| - 1]) * 256 + bytes[|bytes| - 1]
  }

  function Power(n: nat): nat {
    if n == 0 then 1 else 256 * Power(n - 1)
  }

  lemma {:induction false} TimeBytesValue(t: nat, n: nat)
    requires t < Power(n)
    ensures Value(TimeBytes(t, n)) == t
  {
    if n > 0 {
      TimeBytesValue(t / 256, n - 1);
      assert (TimeBytes(t / 256, n - 1) + [t % 256])[..n - 1] == TimeBytes(t / 256, n - 1);
    }
  }

  /** The version byte, `0x70 | (e & 0x0f)`. */
  function VersionByte(e: Byte): Byte {
    0x70 + e % 16
  }

  /** The variant byte, `0x80 | (e & 0x3f)`. */
  function VariantByte(e: Byte): Byte {
    0x80 + e % 64
  }

  /** The sums above are the bitwise forms. */
  lemma BitwiseForms(e: bv8)
    ensures (0x70 | (e & 0x0f)) == 0x70 + (e % 16) && (0x80 | (e & 0x3f)) == 0x80 + (e % 64)
  {
  }

  function Layout(t: nat, e: seq<Byte>): (r: seq<Byte>)
    requires |e| == 10
    ensures |r| == 16
  {
    TimeBytes(t, 6) + [VersionByte(e[0]), e[1], VariantByte(e[2])] + e[3..]
  }

  /** Two digits a byte. */
  function Hex(bytes: seq<Byte>): (r: string)
    ensures |r| == 2 * |bytes| && forall k :: 0 <= k < |r| ==> IsHexDigit(r[k])
  {
    if bytes == [] then []
    else
      var b := bytes[|bytes| - 1];
      Hex(bytes[..|bytes| - 1]) + [HexDigit(b / 16), HexDigit(b % 16)]
  }

  /** What `parseInt(s, 16)` reads from hexadecimal digits. */
  function HexValue(s: string): nat {
    if s == [] then 0 else HexValue(s[..|s| - 1]) * 16 + HexDigitValue(s[|s| - 1])
  }

  lemma {:induction false} HexValueIsValue(bytes: seq<Byte>)
    ensures HexValue(Hex(bytes)) == Value(bytes)
  {
    if bytes != [] {
      var front, b := bytes[..|bytes| - 1], bytes[|bytes| - 1];
      HexValueIsValue(front);
      HexSnoc(Hex(front), HexDigit(b / 16));
      HexSnoc(Hex(front) + [HexDigit(b / 16)], HexDigit(b % 16));
      assert Hex(front) + [HexDigit(b / 16), HexDigit(b % 16)] == Hex(front) + [HexDigit(b / 16)] + [HexDigit(b % 16)];
    }
  }

  lemma {:induction false} HexSnoc(s: string, c: char)
    ensures HexValue(s + [c]) == HexValue(s) * 16 + HexDigitValue(c)
  {
    assert (s + [c])[..|s|] == s;
  }

  lemma {:induction false} HexPrefix(bytes: seq<Byte>, n: nat)
    requires n <= |bytes|
    ensures Hex(bytes[..n]) == Hex(bytes)[..2 * n]
  {
    if n < |bytes| {
      HexPrefix(bytes[..|bytes| - 1], n);
      assert bytes[..|bytes| - 1][..n] == bytes[..n];
    } else {
      assert bytes[..n] == bytes;
    }
  }

  // ---------------------------------------------------------------- the text

  function Dashed(hex: string): string
    requires |hex| == 32
  {
    hex[..8] + "-" + hex[8..12] + "-" + hex[12..16] + "-" + hex[16..20] + "-" + hex[20..]
  }

  /** The pattern every identifier of the system matches. */
  predicate IsUuidV7(s: string) {
    && |s| == 36
    && (forall k :: 0 <= k < 36 ==> if k == 8 || k == 13 || k == 18 || k == 23 then s[k] == '-' else IsHexDigit(s[k]))
    && s[14] == '7' && s[19] in "89ab"
  }

  function FromParts(t: int, e: seq<Byte>): Option<string> {
    if t < 0 || t > MAX_TIMESTAMP || |e| != 10 then None else Some(Dashed(Hex(Layout(t, e))))
  }

  function Compact(s: string): string {
    if s == [] then [] else Compact(s[..|s| - 1]) + if s[|s| - 1] == '-' then [] else [s[|s| - 1]]
  }

  /** The first twelve digits of the text without dashes, read as a number. */
  function TimestampOf(s: string): nat {
    var compact := Compact(s);
    HexValue(if |compact| < 12 then compact else compact[..12])
  }

  /** Fills the sixteen bytes in place, the time from its last byte to its first. */
  method Assemble(t: int, e: seq<Byte>) returns (r: Option<string>)
    ensures r == FromParts(t, e)
  {
    if t < 0 || t > MAX_TIMESTAMP || |e| != 10 {
      return None;
    }
    hide Hex, Dashed;
    var bytes := new Byte[16];
    var timestamp, index := t, 5;
    while index >= 0
      invariant -1 <= index <= 5 && timestamp >= 0
      invariant TimeBytes(t, 6) == TimeBytes(timestamp, index + 1) + bytes[index + 1..6]
    {
      bytes[index] := timestamp % 256;
      timestamp := timestamp / 256;
      index := index - 1;
    }
    assert bytes[0..6] == TimeBytes(t, 6);
    bytes[6] := VersionByte(e[0]);
    bytes[7] := e[1];
    bytes[8] := VariantByte(e[2]);
    var i := 0;
    while i < 7
      invariant 0 <= i <= 7 && bytes[..6] == TimeBytes(t, 6)
      invariant bytes[6] == VersionByte(e[0]) && bytes[7] == e[1] && bytes[8] == VariantByte(e[2])
      invariant bytes[9..9 + i] == e[3..3 + i]
    {
      bytes[9 + i] := e[3 + i];
      i := i + 1;
    }
    assert bytes[9..16] == e[3..];
    assert bytes[..] == bytes[..6] + [bytes[6], bytes[7], bytes[8]] + bytes[9..16];
    return Some(Dashed(Hex(bytes[..])));
  }

  // ---------------------------------------------------------------- properties

  lemma {:induction false} HexDigitAt(bytes: seq<Byte>, k: nat)
    requires k < |bytes|
    ensures Hex(bytes)[2 * k] == HexDigit(bytes[k] / 16) && Hex(bytes)[2 * k + 1] == HexDigit(bytes[k] % 16)
  {
    if k < |bytes| - 1 {
      HexDigitAt(bytes[..|bytes| - 1], k);
    }
  }

  /** Whatever the entropy, the text has the version and variant bits of section 5.7 of RFC 9562. */
  lemma {:induction false} AlwaysVersionSeven(t: int, e: seq<Byte>)
    requires 0 <= t <= MAX_TIMESTAMP && |e| == 10
    ensures FromParts(t, e).Some? && IsUuidV7(FromParts(t, e).value)
  {
    var bytes := Layout(t, e);
    HexDigitAt(bytes, 6);
    HexDigitAt(bytes, 8);
    var hex := Hex(bytes);
    assert hex[12] == HexDigit(7) == '7';
    assert hex[16] == HexDigit(bytes[8] / 16) && 8 <= bytes[8] / 16 <= 11;
    assert hex[16] in "89ab";
    hide Hex, Layout;
    PatternOf(hex);
  }

  lemma {:induction false} PatternOf(hex: string)
    requires |hex| == 32 && (forall k :: 0 <= k < 32 ==> IsHexDigit(hex[k])) && hex[12] == '7' && hex[16] in "89ab"
    ensures IsUuidV7(Dashed(hex))
  {
    hide IsHexDigit;
    var s := Dashed(hex);
    assert s[14] == hex[12] && s[19] == hex[16];
    forall k | 0 <= k < 36
      ensures if k == 8 || k == 13 || k == 18 || k == 23 then s[k] == '-' else IsHexDigit(s[k])
    {
      if k < 8 {
        assert s[k] == hex[k];
      } else if 8 < k < 13 {
        assert s[k] == hex[k - 1];
      } else if 13 < k < 18 {
        assert s[k] == hex[k - 2];
      } else if 18 < k < 23 {
        assert s[k] == hex[k - 3];
      } else if 23 < k {
        assert s[k] == hex[k - 4];
      }
    }
  }

  lemma {:induction false} CompactJoins(a: string, b: string)
    ensures Compact(a + b) == Compact(a) + Compact(b)
  {
    if b == [] {
      assert a + b == a;
    } else {
      CompactJoins(a, b[..|b| - 1]);
      assert (a + b)[..|a + b| - 1] == a + b[..|b| - 1];
    }
  }

  lemma {:induction false} CompactDigits(s: string)
    requires forall k :: 0 <= k < |s| ==> s[k] != '-'
    ensures Compact(s) == s
  {
    if s != [] {
      var front, last := s[..|s| - 1], s[|s| - 1];
      assert last != '-' && s == front + [last];
      CompactDigits(front);
    }
  }

  lemma {:induction false} CompactDashed(hex: string)
    requires |hex| == 32 && forall k :: 0 <= k < 32 ==> hex[k] != '-'
    ensures Compact(Dashed(hex)) == hex
  {
    hide Compact;
    var a, b, c, d, f := hex[..8], hex[8..12], hex[12..16], hex[16..20], hex[20..];
    CompactDigits(a);
    CompactGroup(a, b);
    CompactGroup(a + "-" + b, c);
    CompactGroup(a + "-" + b + "-" + c, d);
    CompactGroup(a + "-" + b + "-" + c + "-" + d, f);
    assert a + b + c + d + f == hex;
  }

  lemma {:induction false} CompactGroup(s: string, group: string)
    requires forall k :: 0 <= k < |group| ==> group[k] != '-'
    ensures Compact(s + "-" + group) == Compact(s) + group
  {
    CompactDigits(group);
    CompactDash();
    hide Compact;
    CompactJoins(s, "-");
    CompactJoins(s + "-", group);
  }

  lemma {:induction false} CompactDash()
    ensures Compact("-") == ""
  {
    assert "-"[..0] == "";
  }

  /** The time is read back, for every 48-bit time and any entropy. */
  lemma {:induction false} TimestampIsRecovered(t: int, e: seq<Byte>)
    requires 0 <= t <= MAX_TIMESTAMP && |e| == 10
    ensures FromParts(t, e).Some? && TimestampOf(FromParts(t, e).value) == t
  {
    var bytes := Layout(t, e);
    assert bytes[..6] == TimeBytes(t, 6);
    hide Layout;
    SixBytes();
    TimeBytesValue(t, 6);
    HexValueIsValue(bytes[..6]);
    HexPrefix(bytes, 6);
    hide Hex;
    CompactDashed(Hex(bytes));
  }

  lemma SixBytes()
    ensures Power(6) == MAX_TIMESTAMP + 1
  {
    assert Power(3) == 0x100_0000;
  }

  // ---------------------------------------------------------------- order

  /** The texts agree up to a position where the first has the smaller character. */
  predicate Before(a: string, b: string) {
    exists k :: 0 <= k < |a| && k < |b| && a[..k] == b[..k] && a[k] < b[k]
  }

  lemma {:induction false} DigitOrder(c: char, d: char)
    requires IsHexDigit(c) && IsHexDigit(d)
    ensures HexDigitValue(c) < HexDigitValue(d) ==> c < d
    ensures HexDigitValue(c) == HexDigitValue(d) ==> c == d
    ensures HexDigitValue(c) < 16
  {
  }

  predicate Digits(s: string) {
    forall k :: 0 <= k < |s| ==> IsHexDigit(s[k])
  }

  lemma {:induction false} ValueOrders(a: string, b: string)
    requires |a| == |b| && Digits(a) && Digits(b)
    ensures HexValue(a) == HexValue(b) ==> a == b
    ensures HexValue(a) < HexValue(b) ==> Before(a, b)
  {
    if a != [] {
      var n := |a| - 1;
      var x, y := a[..n], b[..n];
      ValueOrders(x, y);
      DigitOrder(a[n], b[n]);
      assert a == x + [a[n]] && b == y + [b[n]];
      hide IsHexDigit, HexDigitValue;
      if HexValue(x) < HexValue(y) {
        BeforeExtends(x, y, [a[n]], [b[n]]);
      } else if HexValue(a) < HexValue(b) {
        assert a[..n] == b[..n] && a[n] < b[n];
      }
    }
  }

  lemma {:induction false} BeforeExtends(x: string, y: string, u: string, v: string)
    requires Before(x, y)
    ensures Before(x + u, y + v)
  {
    var k :| 0 <= k < |x| && k < |y| && x[..k] == y[..k] && x[k] < y[k];
    assert (x + u)[..k] == x[..k] && (y + v)[..k] == y[..k];
    assert (x + u)[k] == x[k] && (y + v)[k] == y[k];
  }

  lemma {:induction false} DashKeepsOrder(x: string, y: string)
    requires |x| == 12 == |y| && Before(x, y)
    ensures Before(x[..8] + "-" + x[8..], y[..8] + "-" + y[8..])
  {
    var k :| 0 <= k < |x| && k < |y| && x[..k] == y[..k] && x[k] < y[k];
    var p, q := x[..8] + "-" + x[8..], y[..8] + "-" + y[8..];
    forall i | 0 <= i < k
      ensures x[i] == y[i]
    {
      assert x[..k][i] == y[..k][i];
    }
    var j := if k < 8 then k else k + 1;
    assert p[..j] == q[..j] && p[j] < q[j];
  }

  /** A smaller time gives a text that sorts first, whatever the entropies. */
  lemma {:induction false} TextsSortByTime(t: int, u: int, e: seq<Byte>, f: seq<Byte>)
    requires 0 <= t < u <= MAX_TIMESTAMP && |e| == 10 == |f|
    ensures FromParts(t, e).Some? && FromParts(u, f).Some? && Before(FromParts(t, e).value, FromParts(u, f).value)
  {
    var x, y := Hex(Layout(t, e)), Hex(Layout(u, f));
    TimeDigits(t, e);
    TimeDigits(u, f);
    hide Hex, Layout, Before;
    ValueOrders(x[..12], y[..12]);
    DashKeepsOrder(x[..12], y[..12]);
    HeadAndTail(x);
    HeadAndTail(y);
    BeforeExtends(x[..12][..8] + "-" + x[..12][8..], y[..12][..8] + "-" + y[..12][8..], Dashed(x)[13..], Dashed(y)[13..]);
  }

  lemma {:induction false} TimeDigits(t: int, e: seq<Byte>)
    requires 0 <= t <= MAX_TIMESTAMP && |e| == 10
    ensures HexValue(Hex(Layout(t, e))[..12]) == t && Digits(Hex(Layout(t, e))[..12])
  {
    var bytes := Layout(t, e);
    assert bytes[..6] == TimeBytes(t, 6);
    hide Layout;
    SixBytes();
    TimeBytesValue(t, 6);
    HexValueIsValue(bytes[..6]);
    HexPrefix(bytes, 6);
  }

  lemma {:induction false} HeadAndTail(hex: string)
    requires |hex| == 32
    ensures |Dashed(hex)| == 36 && Dashed(hex) == (hex[..12][..8] + "-" + hex[..12][8..]) + Dashed(hex)[13..]
  {
    assert hex[..12][..8] == hex[..8] && hex[..12][8..] == hex[8..12];
  }

  /** Two identifiers are equal exactly when time and entropy agree outside the six bits the layout fixes. */
  lemma {:induction false} EqualTexts(t: int, u: int, e: seq<Byte>, f: seq<Byte>)
    requires 0 <= t <= MAX_TIMESTAMP && 0 <= u <= MAX_TIMESTAMP && |e| == 10 == |f|
    ensures FromParts(t, e) == FromParts(u, f)
            <==> t == u && e[0] % 16 == f[0] % 16 && e[1] == f[1] && e[2] % 64 == f[2] % 64 && e[3..] == f[3..]
  {
    TimestampIsRecovered(t, e);
    TimestampIsRecovered(u, f);
    hide TimestampOf, Hex, Dashed, Layout;
    if FromParts(t, e) == FromParts(u, f) {
      SameTextSameBytes(Layout(t, e), Layout(u, f));
    }
    if t == u {
      SameLayout(t, e, f);
    }
  }

  /** The bytes of two layouts of one time agree exactly when the entropy does outside the fixed bits. */
  lemma {:induction false} SameLayout(t: int, e: seq<Byte>, f: seq<Byte>)
    requires 0 <= t <= MAX_TIMESTAMP && |e| == 10 == |f|
    ensures Layout(t, e) == Layout(t, f) <==> e[0] % 16 == f[0] % 16 && e[1] == f[1] && e[2] % 64 == f[2] % 64 && e[3..] == f[3..]
  {
    var a, b := Layout(t, e), Layout(t, f);
    if a == b {
      assert a[6] == b[6] && a[7] == b[7] && a[8] == b[8];
      assert a[9..] == e[3..] && b[9..] == f[3..];
    }
  }

  lemma {:induction false} SameTextSameBytes(a: seq<Byte>, b: seq<Byte>)
    requires |a| == 16 == |b| && Dashed(Hex(a)) == Dashed(Hex(b))
    ensures a == b
  {
    CompactDashed(Hex(a));
    CompactDashed(Hex(b));
    forall k | 0 <= k < 16
      ensures a[k] == b[k]
    {
      HexDigitAt(a, k);
      HexDigitAt(b, k);
      assert HexDigitValue(HexDigit(a[k] / 16)) == a[k] / 16 && HexDigitValue(HexDigit(a[k] % 16)) == a[k] % 16;
    }
  }
}
