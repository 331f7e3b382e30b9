/** UUIDs, the identifiers built from them, and their textual form. */
module Uuids {
  import opened Collections

  newtype byte = x: int | 0 <= x < 256

  type Uuid = bytes: seq<byte> | |bytes| == 16 witness seq(16, _ => 0)

  const NIL_UUID: Uuid := [0, 0, 0, 0, 0, 0, 0, 0, 0, 0, 0, 0, 0, 0, 0, 0]

  datatype TaskId = TaskId(uuid: Uuid)
  datatype ContextId = ContextId(uuid: Uuid)
  datatype ArtifactId = ArtifactId(uuid: Uuid)
  datatype AgentId = AgentId(uuid: Uuid)
  datatype MessageId = MessageId(uuid: Uuid)
  datatype ConversationId = ConversationId(uuid: Uuid)
  datatype ToolId = ToolId(uuid: Uuid)
  datatype WebhookId = WebhookId(uuid: Uuid)

  // ---- orders ---------------------------------------------------------------

  /** The derived order on ids: lexicographic on the sixteen bytes. */
  predicate BytesLess(a: seq<byte>, b: seq<byte>) {
    b != [] && (a == [] || a[0] < b[0] || (a[0] == b[0] && BytesLess(a[1..], b[1..])))
  }

  /** String comparison, as used on rendered ids and page tokens. */
  predicate TextLess(a: string, b: string) {
    b != [] && (a == [] || a[0] < b[0] || (a[0] == b[0] && TextLess(a[1..], b[1..])))
  }

  predicate IdLess(a: TaskId, b: TaskId) {
    BytesLess(a.uuid, b.uuid)
  }

  // ---- rendering ------------------------------------------------------------

  function HexDigit(n: int): char
    requires 0 <= n < 16
  {
    if n < 10 then '0' + n as char else 'a' + (n - 10) as char
  }

  function Hex(bytes: seq<byte>): string {
    if bytes == [] then ""
    else [HexDigit(bytes[0] as int / 16), HexDigit(bytes[0] as int % 16)] + Hex(bytes[1..])
  }

  /** Groups of bytes in hexadecimal, separated by hyphens. */
  function Hyphenate(groups: seq<seq<byte>>): string {
    if groups == [] then ""
    else if |groups| == 1 then Hex(groups[0])
    else Hex(groups[0]) + "-" + Hyphenate(groups[1..])
  }

  function Groups(id: Uuid): seq<seq<byte>> {
    [id[..4], id[4..6], id[6..8], id[8..10], id[10..]]
  }

  /** The hyphenated lower-case form (section 4 of RFC 9562): groups of 8-4-4-4-12 digits. */
  function Render(id: Uuid): string {
    Hyphenate(Groups(id))
  }

  // ---- the text order is the id order -----------------------------------------

  lemma {:induction false} HexDigitMonotone(m: int, n: int)
    requires 0 <= m < 16 && 0 <= n < 16
    ensures HexDigit(m) < HexDigit(n) <==> m < n
    ensures HexDigit(m) == HexDigit(n) <==> m == n
  {
  }

  lemma {:induction false} HexLength(bytes: seq<byte>)
    ensures |Hex(bytes)| == 2 * |bytes|
  {
    if bytes != [] {
      HexLength(bytes[1..]);
    }
  }

  lemma {:induction false} TextLessConcat(a: string, b: string, x: string, y: string)
    requires |a| == |b|
    ensures TextLess(a + x, b + y) <==> TextLess(a, b) || (a == b && TextLess(x, y))
  {
    if a == [] {
      assert a + x == x && b + y == y;
    } else {
      assert (a + x)[1..] == a[1..] + x && (b + y)[1..] == b[1..] + y;
      TextLessConcat(a[1..], b[1..], x, y);
      assert a == [a[0]] + a[1..] && b == [b[0]] + b[1..];
    }
  }

  lemma {:induction false} BytesLessConcat(a: seq<byte>, b: seq<byte>, x: seq<byte>, y: seq<byte>)
    requires |a| == |b|
    ensures BytesLess(a + x, b + y) <==> BytesLess(a, b) || (a == b && BytesLess(x, y))
  {
    if a == [] {
      assert a + x == x && b + y == y;
    } else {
      assert (a + x)[1..] == a[1..] + x && (b + y)[1..] == b[1..] + y;
      BytesLessConcat(a[1..], b[1..], x, y);
      assert a == [a[0]] + a[1..] && b == [b[0]] + b[1..];
    }
  }

  lemma HexOfByte(m: byte)
    ensures Hex([m]) == [HexDigit(m as int / 16), HexDigit(m as int % 16)]
  {
    assert [m][1..] == [];
    assert Hex([m][1..]) == "";
  }

  lemma ByteMonotone(m: byte, n: byte)
    ensures TextLess(Hex([m]), Hex([n])) <==> m < n
    ensures Hex([m]) == Hex([n]) <==> m == n
  {
    HexOfByte(m);
    HexOfByte(n);
    assert TextLess(Hex([m])[1..], Hex([n])[1..]) <==> Hex([m])[1] < Hex([n])[1];
    HexDigitMonotone(m as int / 16, n as int / 16);
    HexDigitMonotone(m as int % 16, n as int % 16);
    assert m as int == 16 * (m as int / 16) + m as int % 16;
    assert n as int == 16 * (n as int / 16) + n as int % 16;
  }

  lemma HexCons(a: seq<byte>)
    requires a != []
    ensures Hex(a) == Hex([a[0]]) + Hex(a[1..])
  {
    HexOfByte(a[0]);
  }

  lemma BytesLessOne(m: byte, n: byte)
    ensures BytesLess([m], [n]) <==> m < n
  {
    assert [m][1..] == [] && [n][1..] == [];
  }

  lemma {:induction false} HexMonotone(a: seq<byte>, b: seq<byte>)
    requires |a| == |b|
    ensures TextLess(Hex(a), Hex(b)) <==> BytesLess(a, b)
    ensures Hex(a) == Hex(b) <==> a == b
  {
    if a != [] {
      hide Hex, TextLess, BytesLess;
      var x, y := a[1..], b[1..];
      HexMonotone(x, y);
      ByteMonotone(a[0], b[0]);
      HexCons(a);
      HexCons(b);
      HexLength([a[0]]);
      HexLength([b[0]]);
      TextLessConcat(Hex([a[0]]), Hex([b[0]]), Hex(x), Hex(y));
      SplitEqual(Hex([a[0]]), Hex([b[0]]), Hex(x), Hex(y));
      assert a == [a[0]] + x && b == [b[0]] + y;
      BytesLessConcat([a[0]], [b[0]], x, y);
      SplitEqual([a[0]], [b[0]], x, y);
      BytesLessOne(a[0], b[0]);
    }
  }

  function Joined(groups: seq<seq<byte>>): seq<byte> {
    if groups == [] then [] else groups[0] + Joined(groups[1..])
  }

  predicate SameShape(g: seq<seq<byte>>, h: seq<seq<byte>>) {
    |g| == |h| && forall i :: 0 <= i < |g| ==> |g[i]| == |h[i]|
  }

  lemma SplitEqual<T>(a: seq<T>, b: seq<T>, x: seq<T>, y: seq<T>)
    requires |a| == |b|
    ensures a + x == b + y <==> a == b && x == y
  {
    assert (a + x)[..|a|] == a && (a + x)[|a|..] == x;
    assert (b + y)[..|b|] == b && (b + y)[|b|..] == y;
  }

  lemma {:induction false} SameTextNotLess(s: string)
    ensures !TextLess(s, s)
  {
    if s != "" {
      SameTextNotLess(s[1..]);
    }
  }

  lemma {:induction false} HyphenateMonotone(g: seq<seq<byte>>, h: seq<seq<byte>>)
    requires SameShape(g, h)
    ensures TextLess(Hyphenate(g), Hyphenate(h)) <==> BytesLess(Joined(g), Joined(h))
    ensures Hyphenate(g) == Hyphenate(h) <==> Joined(g) == Joined(h)
  {
    hide Hex, TextLess, BytesLess;
    if g == [] {
      SameTextNotLess("");
      BytesLessTotal([], []);
    } else {
      HexMonotone(g[0], h[0]);
      if |g| == 1 {
        assert Joined(g[1..]) == [] && Joined(h[1..]) == [];
        assert Joined(g) == g[0] + [] == g[0];
        assert Joined(h) == h[0] + [] == h[0];
      } else {
        var x, y := Hyphenate(g[1..]), Hyphenate(h[1..]);
        HyphenateMonotone(g[1..], h[1..]);
        HexLength(g[0]);
        HexLength(h[0]);
        TextLessConcat(Hex(g[0]), Hex(h[0]), "-" + x, "-" + y);
        TextLessConcat("-", "-", x, y);
        SameTextNotLess("-");
        BytesLessConcat(g[0], h[0], Joined(g[1..]), Joined(h[1..]));
        SplitEqual(Hex(g[0]), Hex(h[0]), "-" + x, "-" + y);
        SplitEqual("-", "-", x, y);
        SplitEqual(g[0], h[0], Joined(g[1..]), Joined(h[1..]));
        assert Hyphenate(g) == Hex(g[0]) + ("-" + x) && Hyphenate(h) == Hex(h[0]) + ("-" + y);
      }
    }
  }

  lemma JoinedGroups(id: Uuid)
    ensures Joined(Groups(id)) == id
  {
    var g := Groups(id);
    assert g[1..][1..] == g[2..] && g[2..][1..] == g[3..] && g[3..][1..] == g[4..] && g[4..][1..] == [];
    assert Joined(g[4..]) == id[10..];
    assert Joined(g[3..]) == id[8..];
    assert Joined(g[2..]) == id[6..];
    assert Joined(g[1..]) == id[4..];
  }

  /** Comparing rendered ids as strings is comparing the ids: strictly monotone and injective. */
  lemma RenderMonotone(a: Uuid, b: Uuid)
    ensures TextLess(Render(a), Render(b)) <==> BytesLess(a, b)
    ensures Render(a) == Render(b) <==> a == b
  {
    JoinedGroups(a);
    JoinedGroups(b);
    HyphenateMonotone(Groups(a), Groups(b));
  }

  // ---- the id order is a strict total order ---------------------------------------

  lemma {:induction false} BytesLessTotal(a: seq<byte>, b: seq<byte>)
    ensures !(BytesLess(a, b) && BytesLess(b, a))
    ensures !BytesLess(a, a)
    ensures a == b || BytesLess(a, b) || BytesLess(b, a)
  {
    if a != [] {
      BytesLessTotal(a[1..], a[1..]);
      if b != [] {
        BytesLessTotal(a[1..], b[1..]);
        assert a == [a[0]] + a[1..] && b == [b[0]] + b[1..];
      }
    }
  }

  lemma {:induction false} BytesLessTransitive(a: seq<byte>, b: seq<byte>, c: seq<byte>)
    requires BytesLess(a, b) && BytesLess(b, c)
    ensures BytesLess(a, c)
  {
    if a != [] && a[0] == b[0] && b[0] == c[0] {
      BytesLessTransitive(a[1..], b[1..], c[1..]);
    }
  }

  lemma RenderNotEmpty(id: Uuid)
    ensures Render(id) != ""
  {
    HexLength(Groups(id)[0]);
  }

  // ---- reading ids --------------------------------------------------------------------------

  /** Upper and lower case alike. */
  function HexValue(c: char): Option<nat> {
    if '0' <= c <= '9' then Some(c as int - '0' as int)
    else if 'a' <= c <= 'f' then Some(c as int - 'a' as int + 10)
    else if 'A' <= c <= 'F' then Some(c as int - 'A' as int + 10)
    else None
  }

  function ParseHex(s: string): Option<seq<byte>> {
    if s == "" then Some([])
    else if |s| == 1 then None
    else
      var high, low, rest := HexValue(s[0]), HexValue(s[1]), ParseHex(s[2..]);
      if high.Some? && low.Some? && rest.Some? then Some([(high.value * 16 + low.value) as byte] + rest.value) else None
  }

  predicate Hyphenated(text: string) {
    |text| == 36 && [text[8], text[13], text[18], text[23]] == "----"
  }

  function Digits(text: string): string
    requires Hyphenated(text)
  {
    text[..8] + text[9..13] + text[14..18] + text[19..23] + text[24..]
  }

  /** The hyphenated form, as section 4 of RFC 9562 has it read. */
  function Parse(text: string): Option<Uuid> {
    if Hyphenated(text) then
      var bytes := ParseHex(Digits(text));
      if bytes.Some? && |bytes.value| == 16 then Some(bytes.value) else None
    else None
  }

  function SmallLetter(c: char): char {
    if 'A' <= c <= 'F' then c - 'A' + 'a' else c
  }

  function Small(s: string): string {
    seq(|s|, i requires 0 <= i < |s| => SmallLetter(s[i]))
  }

  lemma DigitParses(c: char, n: nat)
    requires n < 16
    ensures HexValue(c) == Some(n) <==> SmallLetter(c) == HexDigit(n)
    ensures HexValue(c).Some? ==> HexValue(c).value < 16
  {
  }

  lemma PairParses(high: char, low: char, b: byte)
    ensures var h, l := HexValue(high), HexValue(low);
      h.Some? && l.Some? && h.value * 16 + l.value == b as int <==> [SmallLetter(high), SmallLetter(low)] == Hex([b])
  {
    hide HexValue, HexDigit, SmallLetter;
    var n := b as int;
    DigitParses(high, n / 16);
    DigitParses(low, n % 16);
    HexOfByte(b);
  }

  lemma {:induction false} HexParsesExactly(s: string, bytes: seq<byte>)
    ensures ParseHex(s) == Some(bytes) <==> Small(s) == Hex(bytes)
  {
    HexLength(bytes);
    if |s| > 1 && bytes != [] {
      HexParsesExactly(s[2..], bytes[1..]);
      PairParses(s[0], s[1], bytes[0]);
      DigitParses(s[0], 0);
      DigitParses(s[1], 0);
      HexCons(bytes);
      hide Hex, HexValue, SmallLetter;
      assert Small(s) == [SmallLetter(s[0]), SmallLetter(s[1])] + Small(s[2..]);
      HexLength([bytes[0]]);
      SplitEqual([SmallLetter(s[0]), SmallLetter(s[1])], Hex([bytes[0]]), Small(s[2..]), Hex(bytes[1..]));
      assert bytes == [bytes[0]] + bytes[1..];
    }
  }

  lemma {:induction false} HexConcat(a: seq<byte>, b: seq<byte>)
    ensures Hex(a + b) == Hex(a) + Hex(b)
  {
    if a == [] {
      assert a + b == b;
    } else {
      HexConcat(a[1..], b);
      assert (a + b)[1..] == a[1..] + b;
    }
  }

  lemma HyphenateFive(a: seq<byte>, b: seq<byte>, c: seq<byte>, d: seq<byte>, e: seq<byte>)
    ensures Hyphenate([a, b, c, d, e]) == Hex(a) + "-" + (Hex(b) + "-" + (Hex(c) + "-" + (Hex(d) + "-" + Hex(e))))
  {
    hide Hex;
    assert [a, b, c, d, e][1..] == [b, c, d, e] && [b, c, d, e][1..] == [c, d, e];
    assert [c, d, e][1..] == [d, e] && [d, e][1..] == [e];
    assert Hyphenate([d, e]) == Hex(d) + "-" + Hyphenate([e]);
    assert Hyphenate([c, d, e]) == Hex(c) + "-" + Hyphenate([d, e]);
    assert Hyphenate([b, c, d, e]) == Hex(b) + "-" + Hyphenate([c, d, e]);
  }

  lemma FiveParts(a: string, b: string, c: string, d: string, e: string)
    requires |a| == 8 && |b| == 4 && |c| == 4 && |d| == 4 && |e| == 12
    ensures var text := a + "-" + (b + "-" + (c + "-" + (d + "-" + e)));
      Hyphenated(text) && Digits(text) == a + b + c + d + e
  {
  }

  lemma RenderedDigits(id: Uuid)
    ensures Hyphenated(Render(id)) && Digits(Render(id)) == Hex(id)
  {
    var a, b, c, d, e := id[..4], id[4..6], id[6..8], id[8..10], id[10..];
    HyphenateFive(a, b, c, d, e);
    HexLength(a);
    HexLength(b);
    HexLength(c);
    HexLength(d);
    HexLength(e);
    hide Hex, Hyphenate, Hyphenated, Digits;
    FiveParts(Hex(a), Hex(b), Hex(c), Hex(d), Hex(e));
    IdHex(id);
  }

  /** The digits and the hyphens are all there is. */
  lemma SameDigits(s: string, t: string)
    requires Hyphenated(s) && Hyphenated(t) && Digits(s) == Digits(t)
    ensures s == t
  {
    DigitsSpread(s);
    DigitsSpread(t);
  }

  lemma DigitsSpread(text: string)
    requires Hyphenated(text)
    ensures var d := Digits(text);
      |d| == 32 && text == d[..8] + "-" + d[8..12] + "-" + d[12..16] + "-" + d[16..20] + "-" + d[20..]
  {
    var d := Digits(text);
    assert d[..8] == text[..8] && d[8..12] == text[9..13] && d[12..16] == text[14..18];
    assert d[16..20] == text[19..23] && d[20..] == text[24..];
    assert text == text[..8] + "-" + text[9..13] + "-" + text[14..18] + "-" + text[19..23] + "-" + text[24..];
  }

  lemma SmallDigits(text: string)
    ensures Hyphenated(Small(text)) <==> Hyphenated(text)
    ensures Hyphenated(text) ==> Digits(Small(text)) == Small(Digits(text))
  {
  }

  /** An id is read from its rendered form and from that with capital digits, and from no other text. */
  lemma ParsesExactly(text: string, id: Uuid)
    ensures Parse(text) == Some(id) <==> Small(text) == Render(id)
  {
    hide Hex, Render, Hyphenated, Digits, ParseHex, Small;
    RenderedDigits(id);
    SmallDigits(text);
    if Hyphenated(text) {
      HexParsesExactly(Digits(text), id);
      if Digits(Small(text)) == Hex(id) {
        SameDigits(Small(text), Render(id));
      }
    }
  }

  lemma IdHex(id: Uuid)
    ensures Hex(id) == Hex(id[..4]) + Hex(id[4..6]) + Hex(id[6..8]) + Hex(id[8..10]) + Hex(id[10..])
  {
    var a, b, c, d, e := id[..4], id[4..6], id[6..8], id[8..10], id[10..];
    HexConcat(a, b);
    HexConcat(a + b, c);
    HexConcat(a + b + c, d);
    HexConcat(a + b + c + d, e);
    assert a + b + c + d + e == id;
  }

  lemma {:induction false} HexIsSmall(bytes: seq<byte>)
    ensures Small(Hex(bytes)) == Hex(bytes)
  {
    if bytes != [] {
      HexIsSmall(bytes[1..]);
      assert Small(Hex(bytes))[2..] == Small(Hex(bytes[1..])) && Hex(bytes)[2..] == Hex(bytes[1..]);
    }
  }

  /** A rendered id reads back. */
  lemma RenderParses(id: Uuid)
    ensures Parse(Render(id)) == Some(id)
  {
    RenderedDigits(id);
    HexIsSmall(id);
    HexParsesExactly(Hex(id), id);
  }
}
