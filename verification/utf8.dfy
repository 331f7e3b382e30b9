/** UTF-8 (section 3 of RFC 3629), and decoding that puts U+FFFD where the bytes are none. */
module Utf8 {
  import opened Collections
  import opened Uuids

  const REPLACEMENT: char := '\U{FFFD}'

  // ---- encoding -----------------------------------------------------------------------------

  function EncodeChar(c: char): (r: seq<byte>)
    ensures 1 <= |r| <= 4
  {
    var n := c as int;
    if n < 0x80 then [n as byte]
    else if n < 0x800 then [(0xC0 + n / 64) as byte, (0x80 + n % 64) as byte]
    else if n < 0x1_0000 then [(0xE0 + n / 4096) as byte, (0x80 + n / 64 % 64) as byte, (0x80 + n % 64) as byte]
    else
      [(0xF0 + n / 0x4_0000) as byte, (0x80 + n / 4096 % 64) as byte,
       (0x80 + n / 64 % 64) as byte, (0x80 + n % 64) as byte]
  }

  function Encode(s: string): seq<byte> {
    if s == "" then [] else EncodeChar(s[0]) + Encode(s[1..])
  }

  /** Characters below 128 take one byte each. */
  lemma {:induction false} PlainLength(s: string)
    ensures |Encode(s)| >= |s|
    ensures (forall c :: c in s ==> c < '\U{0080}') ==> |Encode(s)| == |s|
  {
    if s != "" {
      PlainLength(s[1..]);
      assert s[0] in s && forall c :: c in s[1..] ==> c in s;
    }
  }

  // ---- decoding -----------------------------------------------------------------------------

  /** How many bytes a character has that starts with `b`; none when no character does. */
  function Width(b: byte): nat {
    if b < 0x80 then 1
    else if 0xC2 <= b <= 0xDF then 2
    else if 0xE0 <= b <= 0xEF then 3
    else if 0xF0 <= b <= 0xF4 then 4
    else 0
  }

  predicate Trails(b: byte) {
    0x80 <= b <= 0xBF
  }

  /** No overlong forms, no surrogates, nothing above U+10FFFF. */
  predicate Seconds(lead: byte, b: byte) {
    && Trails(b)
    && (lead == 0xE0 ==> b >= 0xA0)
    && (lead == 0xED ==> b < 0xA0)
    && (lead == 0xF0 ==> b >= 0x90)
    && (lead == 0xF4 ==> b < 0x90)
  }

  /** The beginning of a character, not yet all of it; or nothing. */
  predicate Partial(p: seq<byte>) {
    p != [] ==>
      && |p| < Width(p[0])
      && (|p| > 1 ==> Seconds(p[0], p[1]))
      && (|p| > 2 ==> Trails(p[2]))
  }

  predicate Continues(p: seq<byte>, b: byte)
    requires Partial(p)
  {
    p != [] && if |p| == 1 then Seconds(p[0], b) else Trails(b)
  }

  /** The character whose bytes are `p` and then `b`. */
  function Completed(p: seq<byte>, b: byte): char
    requires Partial(p) && Continues(p, b) && |p| + 1 == Width(p[0])
  {
    var last := b as int - 0x80;
    if |p| == 1 then ((p[0] as int - 0xC0) * 64 + last) as char
    else if |p| == 2 then ((p[0] as int - 0xE0) * 4096 + (p[1] as int - 0x80) * 64 + last) as char
    else ((p[0] as int - 0xF0) * 0x4_0000 + (p[1] as int - 0x80) * 4096 + (p[2] as int - 0x80) * 64 + last) as char
  }

  /** What is pending after one more byte. */
  function After(p: seq<byte>, b: byte): (r: seq<byte>)
    requires Partial(p)
    ensures Partial(r)
  {
    if Continues(p, b) then if |p| + 1 == Width(p[0]) then [] else p + [b]
    else if Width(b) > 1 then [b]
    else []
  }

  function Flush(p: seq<byte>): string {
    if p == [] then "" else [REPLACEMENT]
  }

  /** What one more byte decodes: a beginning that it does not continue is given up. */
  function Emitted(p: seq<byte>, b: byte): string
    requires Partial(p)
  {
    if Continues(p, b) then if |p| + 1 == Width(p[0]) then [Completed(p, b)] else ""
    else Flush(p) + if Width(b) == 1 then [b as char] else if Width(b) == 0 then [REPLACEMENT] else ""
  }

  function Text(p: seq<byte>, data: seq<byte>): string
    requires Partial(p)
    decreases data
  {
    if data == [] then "" else Emitted(p, data[0]) + Text(After(p, data[0]), data[1..])
  }

  function Pending(p: seq<byte>, data: seq<byte>): (r: seq<byte>)
    requires Partial(p)
    ensures Partial(r)
    decreases data
  {
    if data == [] then p else Pending(After(p, data[0]), data[1..])
  }

  function LossyFrom(p: seq<byte>, data: seq<byte>): string
    requires Partial(p)
  {
    Text(p, data) + Flush(Pending(p, data))
  }

  /** A complete piece of input, decoded by itself. */
  function Lossy(data: seq<byte>): string {
    LossyFrom([], data)
  }

  lemma {:induction false} TextConcat(p: seq<byte>, a: seq<byte>, b: seq<byte>)
    requires Partial(p)
    ensures Text(p, a + b) == Text(p, a) + Text(Pending(p, a), b)
    ensures Pending(p, a + b) == Pending(Pending(p, a), b)
    decreases a
  {
    hide Emitted, After, Width, Seconds, Trails;
    if a == [] {
      assert a + b == b;
    } else {
      var q, rest := After(p, a[0]), a[1..];
      assert (a + b)[0] == a[0] && (a + b)[1..] == rest + b;
      TextConcat(q, rest, b);
      assert Text(p, a + b) == Emitted(p, a[0]) + Text(q, rest + b);
    }
  }

  // ---- encoded text decodes to itself ----------------------------------------------------------

  /** One byte at a time. */
  lemma TextStep(p: seq<byte>, e: seq<byte>, i: nat)
    requires Partial(p) && i < |e|
    ensures Text(p, e[i..]) == Emitted(p, e[i]) + Text(After(p, e[i]), e[i + 1..])
    ensures Pending(p, e[i..]) == Pending(After(p, e[i]), e[i + 1..])
  {
    assert e[i..][1..] == e[i + 1..];
  }

  lemma CharDecodes(c: char)
    ensures Text([], EncodeChar(c)) == [c] && Pending([], EncodeChar(c)) == []
  {
    hide Text, Pending;
    var e := EncodeChar(c);
    EncodedChar(c);
    NothingLeft([]);
    assert e[0..] == e && e[|e|..] == [];
    TextStep([], e, 0);
    if |e| > 1 {
      assert [e[0]] == e[..1];
      TextStep(e[..1], e, 1);
    }
    if |e| > 2 {
      assert e[..1] + [e[1]] == e[..2];
      TextStep(e[..2], e, 2);
    }
    if |e| > 3 {
      assert e[..2] + [e[2]] == e[..3];
      TextStep(e[..3], e, 3);
    }
  }

  lemma NothingLeft(p: seq<byte>)
    requires Partial(p)
    ensures Text(p, []) == "" && Pending(p, []) == p
  {
  }

  /** An encoded character is well formed and means the character. */
  lemma EncodedChar(c: char)
    ensures var e := EncodeChar(c);
      && |e| == Width(e[0])
      && (|e| == 1 ==> e[0] as char == c)
      && (|e| > 1 ==> Seconds(e[0], e[1]) && Partial(e[..|e| - 1]))
      && (|e| > 1 ==> Continues(e[..|e| - 1], e[|e| - 1]) && Completed(e[..|e| - 1], e[|e| - 1]) == c)
  {
    var n := c as int;
    if 0x800 <= n < 0x1_0000 {
      ThreeBytes(n);
    } else if n >= 0x1_0000 {
      FourBytes(n);
    }
  }

  lemma ThreeBytes(n: nat)
    requires 0x800 <= n < 0x1_0000 && !(0xD800 <= n < 0xE000)
    ensures n == n / 4096 * 4096 + n / 64 % 64 * 64 + n % 64
    ensures n / 4096 == 0 ==> n / 64 % 64 >= 0x20
    ensures n / 4096 == 0xD ==> n / 64 % 64 < 0x20
  {
    assert n / 64 / 64 == n / 4096;
  }

  lemma FourBytes(n: nat)
    requires 0x1_0000 <= n < 0x11_0000
    ensures n == n / 0x4_0000 * 0x4_0000 + n / 4096 % 64 * 4096 + n / 64 % 64 * 64 + n % 64
    ensures n / 0x4_0000 == 0 ==> n / 4096 % 64 >= 0x10
    ensures n / 0x4_0000 == 4 ==> n / 4096 % 64 < 0x10
  {
    assert n / 64 / 64 == n / 4096 && n / 4096 / 64 == n / 0x4_0000;
  }

  /** Encoding and decoding is the identity on every string, and leaves nothing pending. */
  lemma {:induction false} EncodedDecodes(s: string)
    ensures Lossy(Encode(s)) == s && Pending([], Encode(s)) == []
  {
    if s != "" {
      CharDecodes(s[0]);
      EncodedDecodes(s[1..]);
      TextConcat([], EncodeChar(s[0]), Encode(s[1..]));
      hide Text, Pending, EncodeChar;
      assert s == [s[0]] + s[1..];
    }
  }

  lemma Digits64(high: nat, low: nat)
    ensures low < 64 ==> (high * 64 + low) / 64 == high && (high * 64 + low) % 64 == low
  {
  }

  /** A character completed from its bytes has those bytes. */
  lemma CompletedEncodes(p: seq<byte>, b: byte)
    requires Partial(p) && Continues(p, b) && |p| + 1 == Width(p[0])
    ensures EncodeChar(Completed(p, b)) == p + [b]
  {
    var last: nat := b as int - 0x80;
    if |p| == 1 {
      Digits64(p[0] as int - 0xC0, last);
      assert p == [p[0]];
    } else if |p| == 2 {
      CompletedThree(p, b);
    } else {
      CompletedFour(p, b);
    }
  }

  lemma CompletedThree(p: seq<byte>, b: byte)
    requires Partial(p) && |p| == 2 && Width(p[0]) == 3 && Trails(b)
    ensures EncodeChar(Completed(p, b)) == p + [b]
  {
    var x, y, z := p[0] as int - 0xE0, p[1] as int - 0x80, b as int - 0x80;
    var n := (x * 64 + y) * 64 + z;
    Digits64(x * 64 + y, z);
    Digits64(x, y);
    assert n / 4096 == n / 64 / 64;
    assert Completed(p, b) as int == n;
    assert p == [p[0], p[1]];
  }

  lemma CompletedFour(p: seq<byte>, b: byte)
    requires Partial(p) && |p| == 3 && Width(p[0]) == 4 && Trails(b)
    ensures EncodeChar(Completed(p, b)) == p + [b]
  {
    var w, x, y, z := p[0] as int - 0xF0, p[1] as int - 0x80, p[2] as int - 0x80, b as int - 0x80;
    var n := ((w * 64 + x) * 64 + y) * 64 + z;
    Digits64((w * 64 + x) * 64 + y, z);
    Digits64(w * 64 + x, y);
    Digits64(w, x);
    assert n / 4096 == n / 64 / 64 && n / 0x4_0000 == n / 64 / 64 / 64;
    assert Completed(p, b) as int == n;
    assert p == [p[0], p[1], p[2]];
  }

  lemma EncodeAppend(a: string, b: string)
    ensures Encode(a + b) == Encode(a) + Encode(b)
  {
    if a == "" {
      assert a + b == b;
    } else {
      EncodeAppend(a[1..], b);
      assert (a + b)[1..] == a[1..] + b;
    }
  }

  /** Text decoded without a replacement character is what the bytes encode: no overlong form,
      surrogate or stray byte passes. */
  lemma {:induction false} CleanIsEncoded(p: seq<byte>, data: seq<byte>)
    requires Partial(p) && REPLACEMENT !in LossyFrom(p, data)
    ensures Encode(LossyFrom(p, data)) == p + data
    decreases data
  {
    hide Text, Pending, Completed, EncodeChar, Encode, Seconds, Width;
    if data == [] {
      NothingLeft(p);
      EncodeNone();
      assert REPLACEMENT in [REPLACEMENT] && LossyFrom(p, data) == Flush(p);
    } else {
      var b, rest := data[0], data[1..];
      LossyCons(p, data);
      hide LossyFrom, Emitted, After, Partial;
      var e, q := Emitted(p, b), After(p, b);
      var more := LossyFrom(q, rest);
      assert forall c :: c in e || c in more ==> c in e + more;
      CleanIsEncoded(q, rest);
      EncodeAppend(e, more);
      EmittedEncodes(p, b);
      Regroup(Encode(e), q, rest, p, b);
      assert data == [b] + rest;
    }
  }

  lemma Regroup(x: seq<byte>, y: seq<byte>, rest: seq<byte>, p: seq<byte>, b: byte)
    ensures x + y == p + [b] ==> x + (y + rest) == p + ([b] + rest)
  {
    assert x + (y + rest) == (x + y) + rest;
  }

  lemma EncodeNone()
    ensures Encode("") == []
  {
  }

  /** What one byte adds to the text is what it adds to the bytes, up to what is pending. */
  lemma EmittedEncodes(p: seq<byte>, b: byte)
    requires Partial(p) && REPLACEMENT !in Emitted(p, b)
    ensures Encode(Emitted(p, b)) + After(p, b) == p + [b]
  {
    hide Completed, EncodeChar, Encode;
    EncodeNone();
    if Continues(p, b) {
      if |p| + 1 == Width(p[0]) {
        EncodeOne(Completed(p, b));
        CompletedEncodes(p, b);
      }
    } else {
      var next := if Width(b) == 1 then [b as char] else if Width(b) == 0 then [REPLACEMENT] else "";
      assert forall c :: c in Flush(p) || c in next ==> c in Emitted(p, b);
      assert REPLACEMENT in [REPLACEMENT];
      assert p == [] && Width(b) != 0;
      if Width(b) == 1 {
        AsciiEncodes(b);
        assert Emitted(p, b) == [b as char];
      } else {
        assert Emitted(p, b) == "";
      }
      assert p + [b] == [b];
    }
  }

  lemma AsciiEncodes(b: byte)
    ensures Width(b) == 1 ==> Encode([b as char]) == [b]
  {
  }

  // ---- decoding piece by piece -----------------------------------------------------------------

  /** The cut between two pieces is inside a character: the second continues what the first began. */
  predicate Cut(a: seq<byte>, b: seq<byte>) {
    b != [] && Continues(Pending([], a), b[0])
  }

  /** A beginning costs one character more at most, and none when the data continues it. */
  lemma {:induction false} BeginningCosts(p: seq<byte>, data: seq<byte>)
    requires Partial(p)
    ensures |LossyFrom(p, data)| <= |Flush(p)| + |Lossy(data)|
    ensures data != [] && Continues(p, data[0]) ==> |LossyFrom(p, data)| < |Flush(p)| + |Lossy(data)|
    ensures !(data != [] && Continues(p, data[0])) ==> LossyFrom(p, data) == Flush(p) + Lossy(data)
    decreases data
  {
    hide Text, Pending, Completed;
    if data == [] {
      NothingLeft(p);
      NothingLeft([]);
    } else {
      var b, rest := data[0], data[1..];
      LossyCons(p, data);
      LossyCons([], data);
      if Continues(p, b) {
        BeginningCosts(After(p, b), rest);
        assert Width(b) == 0;
      }
    }
  }

  lemma LossyCons(p: seq<byte>, data: seq<byte>)
    requires Partial(p) && data != []
    ensures LossyFrom(p, data) == Emitted(p, data[0]) + LossyFrom(After(p, data[0]), data[1..])
  {
    hide Emitted, After, Partial;
  }

  /** Two pieces decoded apart give what they give together exactly when no character is cut;
      otherwise they give more. */
  lemma DecodedApartExactly(a: seq<byte>, b: seq<byte>)
    ensures Lossy(a) + Lossy(b) == Lossy(a + b) <==> !Cut(a, b)
    ensures |Lossy(a + b)| <= |Lossy(a)| + |Lossy(b)|
    ensures Cut(a, b) ==> |Lossy(a + b)| < |Lossy(a)| + |Lossy(b)|
  {
    hide Text, Pending, Continues;
    var p := Pending([], a);
    TextConcat([], a, b);
    BeginningCosts(p, b);
    var rest := LossyFrom(p, b);
    assert Lossy(a + b) == Text([], a) + rest;
    hide LossyFrom;
    assert Lossy(a) + Lossy(b) == Text([], a) + (Flush(p) + Lossy(b));
  }

  /** Each piece decoded by itself. */
  function Decoded(pieces: seq<seq<byte>>): string {
    if pieces == [] then "" else Decoded(pieces[..|pieces| - 1]) + Lossy(pieces[|pieces| - 1])
  }

  predicate Uncut(pieces: seq<seq<byte>>) {
    forall i :: 0 <= i < |pieces| ==> !Cut(Flatten(pieces[..i]), pieces[i])
  }

  lemma UncutLast(pieces: seq<seq<byte>>)
    requires pieces != []
    ensures var init, last := pieces[..|pieces| - 1], pieces[|pieces| - 1];
      Uncut(pieces) <==> Uncut(init) && !Cut(Flatten(init), last)
  {
    hide Cut, Flatten;
    var n := |pieces| - 1;
    assert forall i :: 0 <= i < n ==> pieces[..n][..i] == pieces[..i] && pieces[..n][i] == pieces[i];
  }

  /** Decoding piece by piece is decoding the whole exactly when no piece starts inside a character. */
  lemma {:induction false} UncutExactly(pieces: seq<seq<byte>>)
    ensures Decoded(pieces) == Lossy(Flatten(pieces)) <==> Uncut(pieces)
    ensures |Lossy(Flatten(pieces))| <= |Decoded(pieces)|
    ensures !Uncut(pieces) ==> |Lossy(Flatten(pieces))| < |Decoded(pieces)|
  {
    if pieces != [] {
      var init, last := pieces[..|pieces| - 1], pieces[|pieces| - 1];
      UncutExactly(init);
      UncutLast(pieces);
      DecodedApartExactly(Flatten(init), last);
      hide Uncut, Cut, Lossy;
    }
  }

  /** The two bytes of U+00E9, apart. */
  lemma HalfLetters()
    ensures Lossy([0xC3]) == [REPLACEMENT] && Lossy([0xA9]) == [REPLACEMENT]
    ensures Cut([0xC3], [0xA9]) && EncodeChar('\U{00E9}') == [0xC3, 0xA9]
  {
    OneByte(0xC3);
    OneByte(0xA9);
  }

  lemma EncodeOne(c: char)
    ensures Encode([c]) == EncodeChar(c)
  {
    assert [c][1..] == "" && Encode([c]) == EncodeChar(c) + Encode("");
  }

  /** A cut character is lost: two replacements where the whole has one letter. */
  lemma CutDamages(pieces: seq<seq<byte>>)
    requires pieces == [[0xC3], [0xA9]]
    ensures !Uncut(pieces)
    ensures Decoded(pieces) == [REPLACEMENT, REPLACEMENT] && Lossy(Flatten(pieces)) == ['\U{00E9}']
  {
    hide Lossy, Cut, EncodeChar, Text, Pending;
    HalfLetters();
    var a, b: seq<byte> := [0xC3], [0xA9];
    FlattenNone<byte>();
    FlattenAppend([], a);
    FlattenAppend([a], b);
    assert [] + [a] == [a] && [a] + [b] == pieces && [] + a == a && a + b == [0xC3, 0xA9];
    assert pieces[..1] == [a] && [a][..0] == [];
    assert Decoded([a]) == "" + Lossy(a);
    EncodedDecodes(['\U{00E9}']);
    EncodeOne('\U{00E9}');
    UncutLast(pieces);
  }

  lemma OneByte(b: byte)
    ensures Text([], [b]) == Emitted([], b) && Pending([], [b]) == After([], b)
  {
    assert [b][1..] == [];
  }

  predicate Ascii(data: seq<byte>) {
    forall b :: b in data ==> b < 0x80
  }

  lemma {:induction false} AsciiParts(parts: seq<seq<byte>>)
    requires Ascii(Flatten(parts))
    ensures forall p :: p in parts ==> Ascii(p)
  {
    if parts != [] {
      var n := |parts| - 1;
      assert forall b :: b in Flatten(parts[..n]) || b in parts[n] ==> b in Flatten(parts);
      AsciiParts(parts[..n]);
      assert parts == parts[..n] + [parts[n]];
    }
  }

  /** ASCII is never cut. */
  lemma AsciiUncut(parts: seq<seq<byte>>)
    requires Ascii(Flatten(parts))
    ensures Uncut(parts)
  {
    AsciiParts(parts);
    forall i | 0 <= i < |parts|
      ensures !Cut(Flatten(parts[..i]), parts[i])
    {
      assert Ascii(parts[i]);
      assert parts[i] != [] ==> parts[i][0] in parts[i];
    }
  }
}
