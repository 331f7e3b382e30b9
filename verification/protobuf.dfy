/** JSON documents and messages on the wire: protobuf's Struct and Value, and back. */
module Protobuf {
  import opened Collections
  import opened Json
  import opened TaskTypes
  import opened Uuids

  // ---- numbers ------------------------------------------------------------------------------

  /** 2^53: all integers up to here are doubles. */
  const EXACT: nat := 0x20_0000_0000_0000

  /** The distance between neighbouring doubles at `n`. */
  function Spacing(n: nat): (u: nat)
    ensures u >= 1
  {
    if n < EXACT then 1 else 2 * Spacing(n / 2)
  }

  /** An integer as a double: the nearest one, and of two equally near the one with an even significand. */
  function Rounded(n: nat): nat {
    var u := Spacing(n);
    var q, r := n / u, n % u;
    if 2 * r > u || (2 * r == u && q % 2 == 1) then (q + 1) * u else q * u
  }

  function ToDouble(n: Number): Double {
    match n
    case PosInt(u) => Double(false, Rounded(u) as real)
    case NegInt(i) => Double(i < 0, Rounded(if i < 0 then -i else i) as real)
    case Float(x) => x
  }

  lemma ScaledOrder(a: nat, b: nat, u: nat)
    ensures a <= b ==> a * u <= b * u
  {
    assert b * u == a * u + (b - a) * u;
  }

  /** Of the multiples of `u`, the chosen one is as near as any. */
  lemma NearestMultiple(n: nat, u: nat, k: nat)
    requires u >= 1
    ensures var q, r := n / u, n % u;
      var m := if 2 * r > u || (2 * r == u && q % 2 == 1) then (q + 1) * u else q * u;
      && Apart(n, m) <= Apart(n, k * u)
      && (m == n <==> r == 0)
  {
    var q, r := n / u, n % u;
    DivMod(n, u);
    Multiples(k, q, u);
    Between(n, q * u, u, r, k * u, q % 2 == 1);
  }

  lemma DivMod(n: nat, u: nat)
    requires u >= 1
    ensures n == n / u * u + n % u && n % u < u
  {
  }

  lemma Multiples(k: nat, q: nat, u: nat)
    ensures (q + 1) * u == q * u + u
    ensures k * u <= q * u || q * u + u <= k * u
  {
    if k <= q {
      ScaledOrder(k, q, u);
    } else {
      ScaledOrder(q + 1, k, u);
    }
  }

  lemma Between(n: nat, low: nat, u: nat, r: nat, other: nat, odd: bool)
    requires n == low + r && r < u && (other <= low || low + u <= other)
    ensures var m := if 2 * r > u || (2 * r == u && odd) then low + u else low;
      && Apart(n, m) <= Apart(n, other)
      && (m == n <==> r == 0)
  {
  }

  function Apart(a: int, b: int): nat {
    if a < b then b - a else a - b
  }

  /** The spacing doubles with the magnitude: fifty-three significant bits are kept. */
  lemma {:induction false} SpacingFits(n: nat)
    ensures n / Spacing(n) < EXACT
    ensures n >= EXACT ==> EXACT / 2 <= n / Spacing(n)
  {
    if n >= EXACT {
      var h := n / 2;
      SpacingFits(h);
      var u := Spacing(h);
      Halved(n, u);
      if h < EXACT {
        assert u == 1;
      }
    }
  }

  lemma Halved(n: nat, u: nat)
    requires u >= 1
    ensures n / (2 * u) == n / 2 / u
  {
    var h := n / 2;
    var q, r := h / u, h % u;
    assert h == q * u + r;
    var rest := n - q * (2 * u);
    assert q * (2 * u) == 2 * (q * u);
    assert 0 <= rest < 2 * u;
    Quotient(n, 2 * u, q, rest);
  }

  lemma Quotient(n: nat, u: nat, q: nat, r: nat)
    requires u >= 1 && n == q * u + r && r < u
    ensures n / u == q
  {
    var p := n / u;
    assert n == p * u + n % u;
    assert (p + 1) * u == p * u + u && (q + 1) * u == q * u + u;
    if p < q {
      ScaledOrder(p + 1, q, u);
    } else if p > q {
      ScaledOrder(q + 1, p, u);
    }
  }

  /** No multiple of the spacing, and so no neighbouring double, is nearer than the rounded
      value; and an integer is kept exactly when it is a multiple of its spacing. */
  lemma RoundedIsNearest(n: nat, k: nat)
    ensures Apart(n, Rounded(n)) <= Apart(n, k * Spacing(n))
    ensures Rounded(n) == n <==> n % Spacing(n) == 0
    ensures n / Spacing(n) < EXACT
    ensures n >= EXACT ==> EXACT / 2 <= n / Spacing(n)
  {
    NearestMultiple(n, Spacing(n), k);
    SpacingFits(n);
  }

  /** The real number a double stands for. */
  function Value(x: Double): real {
    if x.negative then 0.0 - x.magnitude else x.magnitude
  }

  function IntegerNumber(n: int): Number {
    if n >= 0 then PosInt(n) else NegInt(n)
  }

  /** Integers are sent with their sign as the nearest double: below 2^53 that is the integer
      itself, and of two that are equally near it is the one with an even significand. */
  lemma IntegersAreSent(n: int, k: nat)
    ensures var x := ToDouble(IntegerNumber(n));
      var size := if n < 0 then -n else n;
      && (x.negative <==> n < 0)
      && Value(x) == (if n < 0 then 0.0 - Rounded(size) as real else Rounded(size) as real)
      && Apart(size, Rounded(size)) <= Apart(size, k * Spacing(size))
      && (size < 9007199254740992 ==> Value(x) == n as real)
      && (size >= 9007199254740992 ==> 4503599627370496 <= size / Spacing(size) < 9007199254740992)
      && (2 * (size % Spacing(size)) == Spacing(size) ==> Rounded(size) / Spacing(size) % 2 == 0)
  {
    var size := if n < 0 then -n else n;
    RoundedIsNearest(size, k);
    TiedIsEven(size);
    BelowExact(size);
    hide Rounded, Spacing, Apart;
  }

  lemma BelowExact(n: nat)
    ensures n < EXACT ==> Rounded(n) == n
  {
  }

  lemma TiedIsEven(n: nat)
    ensures 2 * (n % Spacing(n)) == Spacing(n) ==> Rounded(n) / Spacing(n) % 2 == 0
  {
    var u := Spacing(n);
    var q := n / u;
    if 2 * (n % u) == u {
      var even := if q % 2 == 1 then q + 1 else q;
      assert Rounded(n) == even * u;
      Quotient(even * u, u, even, 0);
    }
  }

  // ---- values -------------------------------------------------------------------------------

  /** What a peer may put in a number field. */
  datatype WireDouble = Finite(x: Double) | NotFinite

  /** `Unset` is a Value whose oneof is absent. */
  datatype WireValue =
    | NullValue(code: int)
    | BoolValue(b: bool)
    | NumberValue(n: WireDouble)
    | StringValue(s: string)
    | ListValue(values: seq<WireValue>)
    | StructValue(fields: map<string, WireValue>)
    | Unset

  type Struct = map<string, WireValue>

  function ToWire(j: Json): WireValue {
    match j
    case Null => NullValue(0)
    case Bool(b) => BoolValue(b)
    case Num(n) => NumberValue(Finite(ToDouble(n)))
    case String(s) => StringValue(s)
    case Array(items) => ListValue(seq(|items|, i requires 0 <= i < |items| => ToWire(items[i])))
    case Object(fields) => StructValue(map k | k in fields :: ToWire(fields[k]))
  }

  function FromWire(v: WireValue): Json {
    match v
    case NullValue(_) => Null
    case BoolValue(b) => Bool(b)
    case NumberValue(Finite(x)) => Num(Float(x))
    case NumberValue(NotFinite) => Null
    case StringValue(s) => String(s)
    case ListValue(values) => Array(seq(|values|, i requires 0 <= i < |values| => FromWire(values[i])))
    case StructValue(fields) => Object(map k | k in fields :: FromWire(fields[k]))
    case Unset => Null
  }

  /** Anything but an object becomes the empty Struct. */
  function ToStruct(j: Json): Struct {
    if j.Object? then map k | k in j.fields :: ToWire(j.fields[k]) else map[]
  }

  function FromStruct(s: Struct): Json {
    Object(map k | k in s :: FromWire(s[k]))
  }

  // ---- there and back -----------------------------------------------------------------------

  /** Every number, at any depth, as a double. */
  function Normalised(j: Json): Json {
    match j
    case Num(n) => Num(Float(ToDouble(n)))
    case Array(items) => Array(seq(|items|, i requires 0 <= i < |items| => Normalised(items[i])))
    case Object(fields) => Object(map k | k in fields :: Normalised(fields[k]))
    case _ => j
  }

  predicate AllFloats(j: Json) {
    match j
    case Num(n) => n.Float?
    case Array(items) => forall i :: 0 <= i < |items| ==> AllFloats(items[i])
    case Object(fields) => forall k :: k in fields ==> AllFloats(fields[k])
    case _ => true
  }

  /** A value that this side would send: no absent oneof, no odd null, no infinity or NaN. */
  predicate Canonical(v: WireValue) {
    match v
    case NullValue(code) => code == 0
    case NumberValue(n) => n.Finite?
    case ListValue(values) => forall i :: 0 <= i < |values| ==> Canonical(values[i])
    case StructValue(fields) => forall k :: k in fields ==> Canonical(fields[k])
    case Unset => false
    case _ => true
  }

  /** Through protobuf and back, a document of any depth is itself with its numbers normalised. */
  lemma {:induction false} ThereAndBack(j: Json)
    ensures FromWire(ToWire(j)) == Normalised(j)
    ensures Canonical(ToWire(j))
  {
    match j {
      case Array(items) =>
        forall i | 0 <= i < |items|
          ensures FromWire(ToWire(items[i])) == Normalised(items[i]) && Canonical(ToWire(items[i]))
        {
          ThereAndBack(items[i]);
        }
      case Object(fields) =>
        forall k | k in fields
          ensures FromWire(ToWire(fields[k])) == Normalised(fields[k]) && Canonical(ToWire(fields[k]))
        {
          ThereAndBack(fields[k]);
        }
        assert FromWire(ToWire(j)).fields == Normalised(j).fields;
      case _ =>
    }
  }

  /** Normalising changes nothing exactly when every number is a double already. */
  lemma {:induction false} NormalFixedExactly(j: Json)
    ensures Normalised(j) == j <==> AllFloats(j)
  {
    match j {
      case Array(items) =>
        var after := Normalised(j).items;
        forall i | 0 <= i < |items|
          ensures after[i] == items[i] <==> AllFloats(items[i])
        {
          NormalFixedExactly(items[i]);
        }
        if AllFloats(j) {
          assert after == items;
        }
      case Object(fields) =>
        var after := Normalised(j).fields;
        forall k | k in fields
          ensures after[k] == fields[k] <==> AllFloats(fields[k])
        {
          NormalFixedExactly(fields[k]);
        }
        if AllFloats(j) {
          assert after == fields;
        }
      case _ =>
    }
  }

  lemma {:induction false} NormalisedIsNormal(j: Json)
    ensures AllFloats(Normalised(j)) && Normalised(Normalised(j)) == Normalised(j)
  {
    match j {
      case Array(items) =>
        forall i | 0 <= i < |items| ensures AllFloats(Normalised(items[i])) {
          NormalisedIsNormal(items[i]);
        }
      case Object(fields) =>
        forall k | k in fields ensures AllFloats(Normalised(fields[k])) {
          NormalisedIsNormal(fields[k]);
        }
      case _ =>
    }
    NormalFixedExactly(Normalised(j));
  }

  /** What a peer gets back: at every depth null for an absent kind, an odd null, an infinity or
      NaN, and everything else as it was. */
  function Tidied(v: WireValue): WireValue {
    match v
    case NullValue(_) => NullValue(0)
    case NumberValue(NotFinite) => NullValue(0)
    case ListValue(values) => ListValue(seq(|values|, i requires 0 <= i < |values| => Tidied(values[i])))
    case StructValue(fields) => StructValue(map k | k in fields :: Tidied(fields[k]))
    case Unset => NullValue(0)
    case _ => v
  }

  lemma {:induction false} BackTidied(v: WireValue)
    ensures ToWire(FromWire(v)) == Tidied(v)
  {
    match v {
      case ListValue(values) =>
        forall i | 0 <= i < |values| ensures ToWire(FromWire(values[i])) == Tidied(values[i]) {
          BackTidied(values[i]);
        }
      case StructValue(fields) =>
        forall k | k in fields ensures ToWire(FromWire(fields[k])) == Tidied(fields[k]) {
          BackTidied(fields[k]);
        }
        assert ToWire(FromWire(v)).fields == Tidied(v).fields;
      case _ =>
    }
  }

  /** A peer's value comes back to it unchanged exactly when it is canonical. */
  lemma {:induction false} BackAndThere(v: WireValue)
    ensures ToWire(FromWire(v)) == v <==> Canonical(v)
  {
    match v {
      case ListValue(values) =>
        var after := ToWire(FromWire(v)).values;
        forall i | 0 <= i < |values|
          ensures after[i] == values[i] <==> Canonical(values[i])
        {
          BackAndThere(values[i]);
        }
        if Canonical(v) {
          assert after == values;
        }
      case StructValue(fields) =>
        var after := ToWire(FromWire(v)).fields;
        forall k | k in fields
          ensures after[k] == fields[k] <==> Canonical(fields[k])
        {
          BackAndThere(fields[k]);
        }
        if Canonical(v) {
          assert after == fields;
        }
      case _ =>
    }
  }

  // ---- messages -----------------------------------------------------------------------------

  datatype WireRole = UnspecifiedRole | UserRole | AgentRole | UnknownRole(code: int)

  datatype WireContent =
    | WireText(text: string)
    | WireUrl(url: string)
    | WireData(data: WireValue)
    | WireRaw(bytes: seq<byte>)

  datatype WirePart = WirePart(content: Option<WireContent>)

  datatype WireMessage = WireMessage(
    messageId: string, contextId: string, taskId: string, role: WireRole,
    parts: seq<WirePart>, metadata: Option<Struct>)

  datatype Refusal = BadRole(role: WireRole) | BadMessageId | EmptyPart

  function PartToWire(p: Part): WirePart {
    match p
    case Text(text) => WirePart(Some(WireText(text)))
    case Url(url) => WirePart(Some(WireUrl(url)))
    case Data(data) => WirePart(Some(WireData(ToWire(data))))
    case Bytes(bytes) => WirePart(Some(WireRaw(bytes)))
  }

  function PartsToWire(parts: seq<Part>): seq<WirePart> {
    seq(|parts|, i requires 0 <= i < |parts| => PartToWire(parts[i]))
  }

  function PartFromWire(p: WirePart): Result<Part, Refusal> {
    match p.content
    case None => Err(EmptyPart)
    case Some(WireText(text)) => Ok(Text(text))
    case Some(WireUrl(url)) => Ok(Url(url))
    case Some(WireData(data)) => Ok(Data(FromWire(data)))
    case Some(WireRaw(bytes)) => Ok(Bytes(bytes))
  }

  function PartsFromWire(parts: seq<WirePart>): Result<seq<Part>, Refusal> {
    if parts == [] then Ok([])
    else
      var first := PartFromWire(parts[0]);
      if first.Err? then Err(first.error)
      else
        var rest := PartsFromWire(parts[1..]);
        if rest.Err? then rest else Ok([first.value] + rest.value)
  }

  function MessageToWire(m: TaskMessage): WireMessage {
    WireMessage(Render(m.id.uuid), "", "", if m.role.User? then UserRole else AgentRole,
                PartsToWire(m.parts),
                if m.metadata.Some? then Some(ToStruct(m.metadata.value)) else None)
  }

  /** `parse` reads an id's text form; `minted` is the id that a message without one gets. */
  function MessageFromWire(m: WireMessage, parse: string -> Option<Uuid>, minted: MessageId)
    : Result<TaskMessage, Refusal>
  {
    if !m.role.UserRole? && !m.role.AgentRole? then Err(BadRole(m.role))
    else if m.messageId != "" && parse(m.messageId).None? then Err(BadMessageId)
    else
      var parts := PartsFromWire(m.parts);
      if parts.Err? then Err(parts.error)
      else
        Ok(TaskMessage(if m.messageId == "" then minted else MessageId(parse(m.messageId).value),
                       if m.role.UserRole? then User else Agent,
                       parts.value,
                       if m.metadata.Some? then Some(FromStruct(m.metadata.value)) else None))
  }

  function NormalisedPart(p: Part): Part {
    if p.Data? then Data(Normalised(p.data)) else p
  }

  function NormalisedParts(parts: seq<Part>): seq<Part> {
    seq(|parts|, i requires 0 <= i < |parts| => NormalisedPart(parts[i]))
  }

  /** Numbers normalised, and metadata that is no object replaced by the empty one. */
  function NormalisedMessage(m: TaskMessage): TaskMessage {
    m.(parts := NormalisedParts(m.parts),
       metadata := if m.metadata.None? then None
                   else if m.metadata.value.Object? then Some(Normalised(m.metadata.value))
                   else Some(Object(map[])))
  }

  predicate Plain(m: TaskMessage) {
    && (m.metadata.Some? ==> m.metadata.value.Object? && AllFloats(m.metadata.value))
    && forall i :: 0 <= i < |m.parts| ==> m.parts[i].Data? ==> AllFloats(m.parts[i].data)
  }

  lemma {:induction false} PartsThereAndBack(parts: seq<Part>)
    ensures PartsFromWire(PartsToWire(parts)) == Ok(NormalisedParts(parts))
  {
    if parts != [] {
      PartsThereAndBack(parts[1..]);
      assert PartsToWire(parts)[1..] == PartsToWire(parts[1..]);
      if parts[0].Data? {
        ThereAndBack(parts[0].data);
      }
      assert PartFromWire(PartsToWire(parts)[0]) == Ok(NormalisedPart(parts[0]));
      assert NormalisedParts(parts) == [NormalisedPart(parts[0])] + NormalisedParts(parts[1..]);
    }
  }

  lemma {:induction false} PartsRefused(parts: seq<WirePart>)
    ensures PartsFromWire(parts).Err? <==> exists i :: 0 <= i < |parts| && parts[i].content.None?
    ensures PartsFromWire(parts).Err? ==> PartsFromWire(parts).error == EmptyPart
    ensures PartsFromWire(parts).Ok? ==> |PartsFromWire(parts).value| == |parts|
  {
    if parts != [] {
      PartsRefused(parts[1..]);
      assert forall i :: 1 <= i < |parts| ==> parts[i] == parts[1..][i - 1];
      assert forall i :: 0 <= i < |parts| - 1 ==> parts[1..][i] == parts[i + 1];
    }
  }

  /** A peer's message is refused for its role, its id or an empty part, in that order, and for
      nothing else; a message without an id gets the minted one. */
  lemma RefusedExactly(m: WireMessage, parse: string -> Option<Uuid>, minted: MessageId)
    ensures var r := MessageFromWire(m, parse, minted);
      if m.role.UnspecifiedRole? || m.role.UnknownRole? then r == Err(BadRole(m.role))
      else if m.messageId != "" && parse(m.messageId).None? then r == Err(BadMessageId)
      else if exists i :: 0 <= i < |m.parts| && m.parts[i].content.None? then r == Err(EmptyPart)
      else r.Ok? && r.value.id == if m.messageId == "" then minted else MessageId(parse(m.messageId).value)
  {
    PartsRefused(m.parts);
  }

  /** A message survives the trip, normalised, exactly when its id reads back; and it is unchanged
      exactly when its metadata is absent or an object and all its numbers are doubles. */
  lemma MessageThereAndBack(m: TaskMessage, parse: string -> Option<Uuid>, minted: MessageId)
    ensures MessageFromWire(MessageToWire(m), parse, minted) == Ok(NormalisedMessage(m)) <==>
      parse(Render(m.id.uuid)) == Some(m.id.uuid)
    ensures NormalisedMessage(m) == m <==> Plain(m)
    ensures MessageToWire(m).contextId == MessageToWire(m).taskId == ""
  {
    PartsThereAndBack(m.parts);
    RenderNotEmpty(m.id.uuid);
    if m.metadata.Some? && m.metadata.value.Object? {
      ThereAndBack(m.metadata.value);
      NormalFixedExactly(m.metadata.value);
      assert FromStruct(ToStruct(m.metadata.value)) == FromWire(ToWire(m.metadata.value));
    }
    var after := NormalisedMessage(m).parts;
    forall i | 0 <= i < |m.parts|
      ensures after[i] == m.parts[i] <==> (m.parts[i].Data? ==> AllFloats(m.parts[i].data))
    {
      if m.parts[i].Data? {
        NormalFixedExactly(m.parts[i].data);
      }
    }
    if Plain(m) {
      assert after == m.parts;
    }
  }

  /** With ids read as they are rendered every message survives. */
  lemma EveryMessageSurvives(m: TaskMessage, minted: MessageId)
    ensures MessageFromWire(MessageToWire(m), Parse, minted) == Ok(NormalisedMessage(m))
  {
    MessageThereAndBack(m, Parse, minted);
    RenderParses(m.id.uuid);
  }
}
