/** The binary layout of C structures (platforms/js/cwat.js). */
module CStructs {
  import opened Basics
  import opened Bits
  import opened Floats

  /** The kinds of scalars. The implementation chooses the pattern a setter writes for not-a-number;
      the theorems hold for every choice. */
  datatype Kind = Unsigned | Signed | Float(nan: nat)

  /** A scalar of some bytes, or a structure of named fields in order. */
  datatype CType =
    | Scalar(bytes: nat, kind: Kind)
    | Struct(fields: seq<Field>)
  {
    ghost predicate Valid() {
      match this
      case Scalar(n, kind) =>
        if kind.Float? then (n == 4 || n == 8) && kind.nan < Pow256(n) && IsNaN(FormatOf(n), kind.nan)
        else n == 1 || n == 2 || n == 4
      case Struct(fields) =>
        && (forall k :: 0 <= k < |fields| ==> fields[k].ctype.Valid())
        && NamesDiffer()
        && forall k :: 0 <= k < |fields| && fields[k].name in INHERITED_BY_NUMBERS ==> fields[k].ctype.Scalar?
    }

    ghost predicate NamesDiffer() {
      Struct? ==> forall j, k :: 0 <= j < k < |fields| ==> fields[j].name != fields[k].name
    }

    /** The size in bytes. */
    function Size(): nat
      decreases this, 1, 0
    {
      if Scalar? then bytes else SizeTo(|fields|)
    }

    /** The place of field k: the sizes before it added up. */
    function SizeTo(k: nat): nat
      requires Struct? && k <= |fields|
      decreases this, 0, k
    {
      if k == 0 then 0 else SizeTo(k - 1) + fields[k - 1].ctype.Size()
    }
  }

  datatype Field = Field(name: string, ctype: CType)

  /** The member that leads to the prototype. Assigning a number to it stores nothing. */
  const PROTO: string := "__proto__"

  /** The members every object has: functions, and the prototype. */
  const INHERITED: set<string> := {
    PROTO, "constructor", "hasOwnProperty", "isPrototypeOf", "propertyIsEnumerable", "toLocaleString",
    "toString", "valueOf", "__defineGetter__", "__defineSetter__", "__lookupGetter__", "__lookupSetter__"}

  const INHERITED_BY_NUMBERS: set<string> := INHERITED + {"toExponential", "toFixed", "toPrecision"}

  /** A number, or a plain object with its own members. */
  datatype Value = Num(number: Number) | Object(members: map<string, Value>) {
    /** A member, with zero for one that is missing. One that is inherited is taken for the number it
        is converted to: not-a-number, but zero for the prototype of numbers. */
    function Member(name: string): Value {
      if Object? then
        if name in members then members[name] else Num(if name in INHERITED then NaN else Finite(0.0))
      else if name == PROTO then Num(Finite(0.0))
      else Num(if name in INHERITED_BY_NUMBERS then NaN else Finite(0.0))
    }
  }

  /** An object after a member was assigned. */
  function Assigned(m: map<string, Value>, name: string, v: Value): map<string, Value> {
    if name == PROTO then m else m[name := v]
  }

  // ---------------------------------------------------------------- numbers as bytes

  function Pow256(n: nat): (p: int)
    ensures p >= 1
  {
    if n == 0 then 1 else 256 * Pow256(n - 1)
  }

  function Le(x: nat, n: nat): (b: seq<Octet>)
    requires x < Pow256(n)
    ensures |b| == n
  {
    if n == 0 then [] else [x % 256] + Le(x / 256, n - 1)
  }

  function FromLe(b: seq<Octet>): (x: nat)
    ensures x < Pow256(|b|)
  {
    if b == [] then 0 else b[0] as int + 256 * FromLe(b[1..])
  }

  lemma {:induction false} LeRoundTrip(x: nat, n: nat)
    requires x < Pow256(n)
    ensures FromLe(Le(x, n)) == x
  {
    if n > 0 {
      LeRoundTrip(x / 256, n - 1);
    }
  }

  lemma LowestByte(d: Octet, x: nat)
    ensures (d + 256 * x) % 256 == d && (d + 256 * x) / 256 == x
  {
  }

  lemma {:induction false} FromLeRoundTrip(b: seq<Octet>)
    ensures Le(FromLe(b), |b|) == b
  {
    if b != [] {
      LowestByte(b[0], FromLe(b[1..]));
      FromLeRoundTrip(b[1..]);
    }
  }

  /** A number without its fraction. */
  function Truncated(x: real): int {
    if x < 0.0 then -(-x).Floor else x.Floor
  }

  /** What a setter of n bytes stores. An integer setter drops the fraction and reduces the number to
      the width; an object is not a number. */
  function Stored(v: Value, n: nat, kind: Kind): (x: nat)
    ensures x < Pow256(n)
  {
    var number := if v.Num? then v.number else NaN;
    match kind
    case Float(nan) => Written(FormatOf(n), number, nan) % Pow256(n)
    case _ => if number.Finite? then Truncated(number.x) % Pow256(n) else 0
  }

  /** The number a getter of n bytes reads. */
  function Loaded(x: nat, n: nat, kind: Kind): Number {
    match kind
    case Unsigned => Finite(x as real)
    case Signed => Finite((if 2 * x >= Pow256(n) then x - Pow256(n) else x) as real)
    case Float(_) => Read(FormatOf(n), x)
  }

  /** An integer setter takes the whole part of a number, towards zero, modulo the width. */
  lemma FractionDropped(x: real, n: nat, kind: Kind) returns (i: int)
    requires !kind.Float?
    ensures Stored(Num(Finite(x)), n, kind) == i % Pow256(n)
    ensures x >= 0.0 ==> i as real <= x < i as real + 1.0
    ensures x <= 0.0 ==> i as real - 1.0 < x <= i as real
  {
    i := Truncated(x);
  }

  // ---------------------------------------------------------------- encoding and decoding

  function Encode(t: CType, v: Value): (b: seq<Octet>)
    ensures |b| == t.Size()
    decreases t, 1, 0
  {
    if t.Scalar? then Le(Stored(v, t.bytes, t.kind), t.bytes) else EncodeTo(t, v, |t.fields|)
  }

  /** The bytes of the first k fields. */
  function EncodeTo(t: CType, v: Value, k: nat): (b: seq<Octet>)
    requires t.Struct? && k <= |t.fields|
    ensures |b| == t.SizeTo(k)
    decreases t, 0, k
  {
    if k == 0 then []
    else
      var f := t.fields[k - 1];
      EncodeTo(t, v, k - 1) + Encode(f.ctype, v.Member(f.name))
  }

  function Decode(t: CType, b: seq<Octet>): Value
    requires |b| == t.Size()
    decreases t, 1, 0
  {
    if t.Scalar? then Num(Loaded(FromLe(b), t.bytes, t.kind)) else Object(DecodeTo(t, b, |t.fields|))
  }

  function DecodeTo(t: CType, b: seq<Octet>, k: nat): map<string, Value>
    requires t.Struct? && k <= |t.fields| && t.SizeTo(k) <= |b|
    decreases t, 0, k
  {
    if k == 0 then map[]
    else
      var f := t.fields[k - 1];
      Assigned(DecodeTo(t, b, k - 1), f.name, Decode(f.ctype, b[t.SizeTo(k - 1)..t.SizeTo(k)]))
  }

  /** A value as the type sees it: numbers in range, missing members with their default, no others. */
  function Normal(t: CType, v: Value): Value
    decreases t, 1, 0
  {
    if t.Scalar? then Num(Loaded(Stored(v, t.bytes, t.kind), t.bytes, t.kind))
    else Object(NormalTo(t, v, |t.fields|))
  }

  function NormalTo(t: CType, v: Value, k: nat): map<string, Value>
    requires t.Struct? && k <= |t.fields|
    decreases t, 0, k
  {
    if k == 0 then map[]
    else
      var f := t.fields[k - 1];
      Assigned(NormalTo(t, v, k - 1), f.name, Normal(f.ctype, v.Member(f.name)))
  }

  /** What is read back is the value stored, as the type sees it. */
  lemma {:induction false} RoundTrip(t: CType, v: Value)
    ensures Decode(t, Encode(t, v)) == Normal(t, v)
    decreases t, 1, 0
  {
    if t.Scalar? {
      LeRoundTrip(Stored(v, t.bytes, t.kind), t.bytes);
    } else {
      RoundTripTo(t, v, Encode(t, v), |t.fields|);
    }
  }

  lemma {:induction false} RoundTripTo(t: CType, v: Value, b: seq<Octet>, k: nat)
    requires t.Struct? && k <= |t.fields| && EncodeTo(t, v, k) <= b
    ensures DecodeTo(t, b, k) == NormalTo(t, v, k)
    decreases t, 0, k
  {
    if k > 0 {
      var f := t.fields[k - 1];
      var field := Encode(f.ctype, v.Member(f.name));
      RoundTrip(f.ctype, v.Member(f.name));
      RoundTripTo(t, v, b, k - 1);
      assert b[..t.SizeTo(k)] == EncodeTo(t, v, k - 1) + field;
      assert b[t.SizeTo(k - 1)..t.SizeTo(k)] == field;
    }
  }

  lemma IntegerStored(i: int, n: nat, x: nat)
    requires x < Pow256(n) && (i == x || i == x - Pow256(n))
    ensures Truncated(i as real) % Pow256(n) == x
  {
    RemainderUnique(i, Pow256(n), if i == x then 0 else -1, x);
  }

  lemma FormatWidth(n: nat)
    requires n == 4 || n == 8
    ensures 2 * FormatOf(n).sign == Pow256(n)
  {
    assert Pow256(4) == 0x1_0000_0000;
  }

  /** A loaded number is stored as what it was loaded from, unless that was a NaN of another
      pattern than the implementation writes. */
  lemma StoredLoaded(x: nat, n: nat, kind: Kind)
    requires Scalar(n, kind).Valid() && x < Pow256(n)
    ensures Stored(Num(Loaded(x, n, kind)), n, kind) == if KeepsPattern(x, n, kind) then x else kind.nan
  {
    match kind
    case Unsigned => IntegerStored(x, n, x);
    case Signed => IntegerStored(if 2 * x >= Pow256(n) then x - Pow256(n) else x, n, x);
    case Float(nan) =>
      FormatWidth(n);
      WrittenRead(FormatOf(n), x, nan);
      RemainderUnique(x, Pow256(n), 0, x);
      RemainderUnique(nan, Pow256(n), 0, nan);
  }

  predicate KeepsPattern(x: nat, n: nat, kind: Kind) {
    kind.Float? && IsNaN(FormatOf(n), x) ==> x == kind.nan
  }

  /** What is stored for not-a-number. */
  function NoNumber(kind: Kind): nat {
    if kind.Float? then kind.nan else 0
  }

  /** A field that cannot be read into a member, and holds something else than not-a-number. */
  ghost predicate Unreadable(f: Field, b: seq<Octet>) {
    f.name == PROTO && f.ctype.Scalar? && FromLe(b) != NoNumber(f.ctype.kind)
  }

  /** No float field holds a NaN of another pattern than the implementation writes, and no field is
      unreadable. */
  ghost predicate Restorable(t: CType, b: seq<Octet>)
    requires |b| == t.Size()
    decreases t, 1, 0
  {
    if t.Scalar? then KeepsPattern(FromLe(b), t.bytes, t.kind) else RestorableTo(t, b, |t.fields|)
  }

  ghost predicate RestorableTo(t: CType, b: seq<Octet>, k: nat)
    requires t.Struct? && k <= |t.fields| && t.SizeTo(k) <= |b|
    decreases t, 0, k
  {
    k > 0 ==>
      && RestorableTo(t, b, k - 1)
      && Restorable(t.fields[k - 1].ctype, b[t.SizeTo(k - 1)..t.SizeTo(k)])
      && !Unreadable(t.fields[k - 1], b[t.SizeTo(k - 1)..t.SizeTo(k)])
  }

  /** Writing what was read restores the bytes if and only if no float field holds a NaN of another
      pattern than the implementation writes and no field is unreadable. */
  lemma {:induction false} EveryEncoding(t: CType, b: seq<Octet>)
    requires t.Valid() && |b| == t.Size()
    ensures Encode(t, Decode(t, b)) == b <==> Restorable(t, b)
    decreases t, 1, 0
  {
    if t.Scalar? {
      ScalarEncoding(t, b);
    } else {
      DecodedTo(t, b, |t.fields|);
      EveryEncodingTo(t, b, DecodeTo(t, b, |t.fields|), |t.fields|);
      assert b[..t.Size()] == b;
    }
  }

  lemma ScalarEncoding(t: CType, b: seq<Octet>)
    requires t.Scalar? && t.Valid() && |b| == t.bytes
    ensures Encode(t, Decode(t, b)) == b <==> KeepsPattern(FromLe(b), t.bytes, t.kind)
  {
    var x, n := FromLe(b), t.bytes;
    FromLeRoundTrip(b);
    StoredLoaded(x, n, t.kind);
    if !KeepsPattern(x, n, t.kind) {
      LeRoundTrip(t.kind.nan, n);
    }
  }

  /** A field with the name of an inherited member is not-a-number when the member is missing, and not
      zero. */
  lemma InheritedMember(name: string, nan: nat)
    requires Scalar(4, Float(nan)).Valid()
    requires name in {
      "constructor", "hasOwnProperty", "isPrototypeOf", "propertyIsEnumerable", "toLocaleString", "toString",
      "valueOf", "__defineGetter__", "__defineSetter__", "__lookupGetter__", "__lookupSetter__"}
    ensures var t := Struct([Field(name, Scalar(4, Float(nan)))]);
      Decode(t, Encode(t, Object(map[]))) == Object(map[name := Num(NaN)])
  {
    var f := Field(name, Scalar(4, Float(nan)));
    var t := Struct([f]);
    RoundTrip(t, Object(map[]));
    assert NormalTo(t, Object(map[]), 0) == map[];
    NoNumberStored(4, Float(nan));
    assert NormalTo(t, Object(map[]), 1) == map[name := Num(NaN)];
  }

  /** The same in a structure that is missing itself, with the functions of numbers. */
  lemma InheritedByNumber(name: string, nan: nat)
    requires Scalar(4, Float(nan)).Valid()
    requires name in {
      "constructor", "hasOwnProperty", "isPrototypeOf", "propertyIsEnumerable", "toLocaleString", "toString",
      "valueOf", "__defineGetter__", "__defineSetter__", "__lookupGetter__", "__lookupSetter__",
      "toExponential", "toFixed", "toPrecision"}
    ensures var t := Struct([Field("x", Struct([Field(name, Scalar(4, Float(nan)))]))]);
      Decode(t, Encode(t, Object(map[]))) == Object(map["x" := Object(map[name := Num(NaN)])])
  {
    var inner := Struct([Field(name, Scalar(4, Float(nan)))]);
    var t := Struct([Field("x", inner)]);
    RoundTrip(t, Object(map[]));
    NoNumberStored(4, Float(nan));
    var zero := Num(Finite(0.0));
    assert NormalTo(inner, zero, 0) == map[];
    assert NormalTo(inner, zero, 1) == map[name := Num(NaN)];
    assert NormalTo(t, Object(map[]), 0) == map[];
    assert NormalTo(t, Object(map[]), 1) == map["x" := Object(map[name := Num(NaN)])];
  }

  /** A field with the name of the prototype is not read, so that writing clears it. */
  lemma UnreadField(d: Octet)
    requires d != 0
    ensures var t := Struct([Field(PROTO, Scalar(1, Unsigned))]);
      t.Size() == 1 && Decode(t, [d]) == Object(map[]) && Encode(t, Decode(t, [d])) != [d]
  {
    var t := Struct([Field(PROTO, Scalar(1, Unsigned))]);
    assert t.SizeTo(0) == 0 && t.SizeTo(1) == 1;
    assert DecodeTo(t, [d], 0) == map[] && DecodeTo(t, [d], 1) == map[];
    assert [d][0..1] == [d] && FromLe([d]) == d + 256 * FromLe([d][1..]) == d;
    assert Unreadable(t.fields[0], [d][t.SizeTo(0)..t.SizeTo(1)]);
    assert !RestorableTo(t, [d], 1);
    EveryEncoding(t, [d]);
  }

  /** A signalling NaN in a single-precision field is not restored, whatever pattern but its own the
      implementation writes. */
  lemma SignallingNaN(nan: nat)
    requires Scalar(4, Float(nan)).Valid() && nan != 0x7F80_0001
    ensures var t := Struct([Field("x", Scalar(4, Float(nan)))]); var b := [0x01, 0x00, 0x80, 0x7F];
      t.Size() == 4 && Encode(t, Decode(t, b)) != b
  {
    var t := Struct([Field("x", Scalar(4, Float(nan)))]);
    var b := [0x01, 0x00, 0x80, 0x7F];
    assert t.SizeTo(0) == 0 && t.SizeTo(1) == 4;
    FourBytes(b);
    assert b[0..4] == b;
    assert !Restorable(t.fields[0].ctype, b[t.SizeTo(0)..t.SizeTo(1)]);
    assert !RestorableTo(t, b, 1);
    EveryEncoding(t, b);
  }

  lemma FourBytes(b: seq<Octet>)
    requires |b| == 4
    ensures FromLe(b) == b[0] as int + 256 * (b[1] as int) + 0x1_0000 * (b[2] as int) + 0x100_0000 * (b[3] as int)
  {
    assert b[1..][1..] == b[2..] && b[2..][1..] == b[3..] && b[3..][1..] == [];
    assert FromLe(b[3..]) == b[3] as int;
    assert FromLe(b[2..]) == b[2] as int + 256 * FromLe(b[3..]);
    assert FromLe(b[1..]) == b[1] as int + 256 * FromLe(b[2..]);
  }

  /** Member j of an object is what field j decodes to, unless it is the prototype. */
  ghost predicate Decoded(t: CType, b: seq<Octet>, m: map<string, Value>, j: nat)
    requires t.Struct? && j < |t.fields|
  {
    t.SizeTo(j + 1) <= |b| &&
    if t.fields[j].name == PROTO then PROTO !in m
    else
      && t.fields[j].name in m
      && m[t.fields[j].name] == Decode(t.fields[j].ctype, b[t.SizeTo(j)..t.SizeTo(j + 1)])
  }

  lemma {:induction false} NoPrototype(t: CType, b: seq<Octet>, k: nat)
    requires t.Struct? && k <= |t.fields| && t.SizeTo(k) <= |b|
    ensures PROTO !in DecodeTo(t, b, k)
  {
    if k > 0 {
      NoPrototype(t, b, k - 1);
    }
  }

  /** Assigning another member, which is not the prototype, leaves a member as it is. */
  lemma AssignedOther(m: map<string, Value>, name: string, v: Value, other: string)
    requires name != other
    ensures other in m <==> other in Assigned(m, name, v)
    ensures other in m ==> Assigned(m, name, v)[other] == m[other]
  {
  }

  lemma {:induction false} DecodedAt(t: CType, b: seq<Octet>, k: nat, j: nat)
    requires t.Struct? && t.NamesDiffer() && j < k <= |t.fields| && t.SizeTo(k) <= |b|
    ensures Decoded(t, b, DecodeTo(t, b, k), j)
  {
    NoPrototype(t, b, k);
    if j < k - 1 {
      var f := t.fields[k - 1];
      DecodedAt(t, b, k - 1, j);
      AssignedOther(DecodeTo(t, b, k - 1), f.name, Decode(f.ctype, b[t.SizeTo(k - 1)..t.SizeTo(k)]),
                    t.fields[j].name);
    }
  }

  lemma DecodedTo(t: CType, b: seq<Octet>, k: nat)
    requires t.Struct? && t.NamesDiffer() && k <= |t.fields| && t.SizeTo(k) <= |b|
    ensures forall j :: 0 <= j < k ==> Decoded(t, b, DecodeTo(t, b, k), j)
  {
    forall j | 0 <= j < k ensures Decoded(t, b, DecodeTo(t, b, k), j) {
      DecodedAt(t, b, k, j);
    }
  }

  /** Not-a-number is written for the prototype. */
  lemma UnreadableScalar(t: CType, b: seq<Octet>)
    requires t.Scalar? && t.Valid() && |b| == t.bytes
    ensures Encode(t, Num(NaN)) == b <==> FromLe(b) == NoNumber(t.kind)
    ensures FromLe(b) == NoNumber(t.kind) ==> KeepsPattern(FromLe(b), t.bytes, t.kind)
  {
    NoNumberStored(t.bytes, t.kind);
    FromLeRoundTrip(b);
    LeRoundTrip(NoNumber(t.kind), t.bytes);
  }

  lemma NoNumberStored(n: nat, kind: Kind)
    requires Scalar(n, kind).Valid()
    ensures NoNumber(kind) < Pow256(n) && Stored(Num(NaN), n, kind) == NoNumber(kind)
  {
    if kind.Float? {
      RemainderUnique(kind.nan, Pow256(n), 0, kind.nan);
    }
  }

  /** The bytes of one field are restored from its member, or from the prototype. */
  lemma FieldRestored(f: Field, m: map<string, Value>, part: seq<Octet>)
    requires f.ctype.Valid() && |part| == f.ctype.Size()
    requires f.name == PROTO ==> PROTO !in m && f.ctype.Scalar?
    requires f.name != PROTO ==> f.name in m && m[f.name] == Decode(f.ctype, part)
    requires f.name != PROTO ==> (Encode(f.ctype, Decode(f.ctype, part)) == part <==> Restorable(f.ctype, part))
    ensures Encode(f.ctype, Object(m).Member(f.name)) == part
        <==> Restorable(f.ctype, part) && !Unreadable(f, part)
  {
    if f.name == PROTO {
      UnreadableScalar(f.ctype, part);
    }
  }

  lemma {:induction false} EveryEncodingTo(t: CType, b: seq<Octet>, m: map<string, Value>, k: nat)
    requires t.Struct? && t.Valid() && k <= |t.fields| && t.SizeTo(k) <= |b|
    requires forall j :: 0 <= j < k ==> Decoded(t, b, m, j)
    ensures EncodeTo(t, Object(m), k) == b[..t.SizeTo(k)] <==> RestorableTo(t, b, k)
    decreases t, 0, k
  {
    if k > 0 {
      var f, lo, hi := t.fields[k - 1], t.SizeTo(k - 1), t.SizeTo(k);
      EveryEncodingTo(t, b, m, k - 1);
      assert Decoded(t, b, m, k - 1);
      if f.name != PROTO {
        EveryEncoding(f.ctype, b[lo..hi]);
      }
      FieldRestored(f, m, b[lo..hi]);
      SamePair(EncodeTo(t, Object(m), k - 1), Encode(f.ctype, Object(m).Member(f.name)), b, lo, hi);
    }
  }

  lemma SamePair(p: seq<Octet>, q: seq<Octet>, b: seq<Octet>, lo: nat, hi: nat)
    requires lo <= hi <= |b| && |p| == lo && |q| == hi - lo
    ensures p + q == b[..hi] <==> p == b[..lo] && q == b[lo..hi]
  {
    assert b[..hi] == b[..lo] + b[lo..hi];
    assert (p + q)[..lo] == p && (p + q)[lo..] == q;
    assert b[..hi][..lo] == b[..lo] && b[..hi][lo..] == b[lo..hi];
  }

  // ---------------------------------------------------------------- values that fit the type

  /** The names of the first k fields that can be members. */
  ghost function Names(t: CType, k: nat): set<string>
    requires t.Struct? && k <= |t.fields|
  {
    set j | 0 <= j < k && t.fields[j].name != PROTO :: t.fields[j].name
  }

  /** An integer in range, or a number of the float format. */
  ghost predicate NumberFits(n: nat, kind: Kind, number: Number) {
    if kind.Float? then exists x :: 0 <= x < Pow256(n) && Loaded(x, n, kind) == number
    else
      && number.Finite?
      && var i := Truncated(number.x);
      && number.x == i as real
      && if kind == Signed then -Pow256(n) <= 2 * i < Pow256(n) else 0 <= i < Pow256(n)
  }

  /** Exactly the members of the type, and numbers that fit. */
  ghost predicate WellTyped(t: CType, v: Value)
    decreases t, 1
  {
    match t
    case Scalar(n, kind) => v.Num? && NumberFits(n, kind, v.number)
    case Struct(fields) =>
      && v.Object? && v.members.Keys == Names(t, |fields|)
      && forall k :: 0 <= k < |fields| ==> MemberFits(t, v, k)
  }

  ghost predicate MemberFits(t: CType, v: Value, k: nat)
    requires t.Struct? && k < |t.fields|
    decreases t, 0
  {
    t.fields[k].name == PROTO || WellTyped(t.fields[k].ctype, v.Member(t.fields[k].name))
  }

  lemma NamesGrow(t: CType, k: nat)
    requires t.Struct? && 0 < k <= |t.fields|
    ensures Names(t, k) == Names(t, k - 1) + if t.fields[k - 1].name == PROTO then {} else {t.fields[k - 1].name}
  {
  }

  /** Member j of an object is the normal form of that member of a value. */
  ghost predicate Normalized(t: CType, v: Value, m: map<string, Value>, j: nat)
    requires t.Struct? && j < |t.fields|
  {
    var f := t.fields[j];
    f.name != PROTO ==> f.name in m && m[f.name] == Normal(f.ctype, v.Member(f.name))
  }

  lemma {:induction false} NormalAt(t: CType, v: Value, k: nat, j: nat)
    requires t.Struct? && t.NamesDiffer() && j < k <= |t.fields|
    ensures Normalized(t, v, NormalTo(t, v, k), j)
  {
    if j < k - 1 {
      NormalAt(t, v, k - 1, j);
      assert t.fields[j].name != t.fields[k - 1].name;
    }
  }

  lemma {:induction false} NormalKeys(t: CType, v: Value, k: nat)
    requires t.Struct? && k <= |t.fields|
    ensures NormalTo(t, v, k).Keys == Names(t, k)
  {
    if k > 0 {
      NormalKeys(t, v, k - 1);
      NamesGrow(t, k);
    }
  }

  lemma NormalScalar(n: nat, kind: Kind, v: Value)
    requires Scalar(n, kind).Valid()
    ensures NumberFits(n, kind, Loaded(Stored(v, n, kind), n, kind))
  {
    LoadedFits(Stored(v, n, kind), n, kind);
  }

  lemma LoadedFits(x: nat, n: nat, kind: Kind)
    requires x < Pow256(n)
    ensures NumberFits(n, kind, Loaded(x, n, kind))
  {
    if !kind.Float? {
      var i := if kind == Signed && 2 * x >= Pow256(n) then x - Pow256(n) else x;
      assert Truncated(i as real) == i;
    }
  }

  lemma FittingScalar(n: nat, kind: Kind, v: Value)
    requires Scalar(n, kind).Valid() && v.Num? && NumberFits(n, kind, v.number)
    ensures Loaded(Stored(v, n, kind), n, kind) == v.number
  {
    if kind.Float? {
      var x: nat :| x < Pow256(n) && Loaded(x, n, kind) == v.number;
      StoredLoaded(x, n, kind);
    } else {
      var i := Truncated(v.number.x);
      IntegerStored(i, n, if i < 0 then i + Pow256(n) else i);
    }
  }

  /** A normal value fits the type. */
  lemma {:induction false} NormalFits(t: CType, v: Value)
    requires t.Valid()
    ensures WellTyped(t, Normal(t, v))
    decreases t
  {
    if t.Scalar? {
      NormalScalar(t.bytes, t.kind, v);
    } else {
      NormalKeys(t, v, |t.fields|);
      forall k | 0 <= k < |t.fields| ensures MemberFits(t, Normal(t, v), k) {
        NormalAt(t, v, |t.fields|, k);
        if t.fields[k].name != PROTO {
          NormalFits(t.fields[k].ctype, v.Member(t.fields[k].name));
        }
      }
    }
  }

  /** A value that fits is normal. */
  lemma {:induction false} FittingIsNormal(t: CType, v: Value)
    requires t.Valid() && WellTyped(t, v)
    ensures Normal(t, v) == v
    decreases t
  {
    if t.Scalar? {
      FittingScalar(t.bytes, t.kind, v);
    } else {
      var m := NormalTo(t, v, |t.fields|);
      NormalKeys(t, v, |t.fields|);
      forall name | name in v.members ensures m[name] == v.members[name] {
        var j :| 0 <= j < |t.fields| && t.fields[j].name == name;
        assert MemberFits(t, v, j);
        NormalAt(t, v, |t.fields|, j);
        FittingIsNormal(t.fields[j].ctype, v.Member(name));
      }
      assert m == v.members;
    }
  }

  /** A value is read back unchanged if and only if it fits the type. */
  lemma ReadBack(t: CType, v: Value)
    requires t.Valid()
    ensures Decode(t, Encode(t, v)) == v <==> WellTyped(t, v)
  {
    RoundTrip(t, v);
    NormalFits(t, v);
    if WellTyped(t, v) {
      FittingIsNormal(t, v);
    }
  }

  // ---------------------------------------------------------------- the layout

  ghost predicate Covers(t: CType, k: nat, p: nat)
    requires t.Struct? && k < |t.fields|
  {
    t.SizeTo(k) <= p < t.SizeTo(k + 1)
  }

  lemma {:induction false} SizesGrow(t: CType, j: nat, k: nat)
    requires t.Struct? && j <= k <= |t.fields|
    ensures t.SizeTo(j) <= t.SizeTo(k)
    decreases k
  {
    if j < k {
      SizesGrow(t, j, k - 1);
    }
  }

  lemma {:induction false} SomeFieldCovers(t: CType, k: nat, p: nat) returns (j: nat)
    requires t.Struct? && k <= |t.fields| && p < t.SizeTo(k)
    ensures j < k && Covers(t, j, p)
  {
    if p < t.SizeTo(k - 1) {
      j := SomeFieldCovers(t, k - 1, p);
    } else {
      j := k - 1;
    }
  }

  /** Every byte of a structure belongs to exactly one field. */
  lemma Tiles(t: CType, p: nat)
    requires t.Struct? && p < t.Size()
    ensures exists k ::
      && 0 <= k < |t.fields| && Covers(t, k, p)
      && forall j :: 0 <= j < |t.fields| && Covers(t, j, p) ==> j == k
  {
    var k := SomeFieldCovers(t, |t.fields|, p);
    forall j | 0 <= j < |t.fields| && Covers(t, j, p) ensures j == k {
      if j < k {
        SizesGrow(t, j + 1, k);
      } else if k < j {
        SizesGrow(t, k + 1, j);
      }
    }
  }

  /** The first fields come first. */
  lemma {:induction false} FirstFields(t: CType, v: Value, k: nat, n: nat)
    requires t.Struct? && k <= n <= |t.fields|
    ensures t.SizeTo(k) <= t.SizeTo(n) && EncodeTo(t, v, n)[..t.SizeTo(k)] == EncodeTo(t, v, k)
    decreases n
  {
    if k < n {
      var front, last := EncodeTo(t, v, n - 1), Encode(t.fields[n - 1].ctype, v.Member(t.fields[n - 1].name));
      assert EncodeTo(t, v, n) == front + last;
      FirstFields(t, v, k, n - 1);
      FrontOf(front, last, t.SizeTo(k));
    } else {
      FrontOf(EncodeTo(t, v, n), [], t.SizeTo(k));
      assert EncodeTo(t, v, n) + [] == EncodeTo(t, v, n);
    }
  }

  lemma FrontOf(p: seq<Octet>, q: seq<Octet>, n: nat)
    requires n <= |p|
    ensures (p + q)[..n] == p[..n]
  {
  }

  /** The bytes at the place of a field are those of its member. */
  lemma FieldBytes(t: CType, v: Value, k: nat)
    requires t.Struct? && k < |t.fields|
    ensures t.SizeTo(k) <= t.SizeTo(k + 1) <= t.Size()
    ensures Encode(t, v)[t.SizeTo(k)..t.SizeTo(k + 1)]
         == Encode(t.fields[k].ctype, v.Member(t.fields[k].name))
  {
    FirstFields(t, v, k + 1, |t.fields|);
    BehindFront(Encode(t, v), EncodeTo(t, v, k), Encode(t.fields[k].ctype, v.Member(t.fields[k].name)));
  }

  lemma BehindFront(b: seq<Octet>, p: seq<Octet>, q: seq<Octet>)
    requires |p| + |q| <= |b| && b[..|p| + |q|] == p + q
    ensures b[|p|..|p| + |q|] == q
  {
    assert b[|p|..|p| + |q|] == b[..|p| + |q|][|p|..];
  }

  // ---------------------------------------------------------------- missing members

  /** Every object has a member of this name. */
  ghost predicate Inherited(name: string) {
    name in {
      "__proto__", "constructor", "hasOwnProperty", "isPrototypeOf", "propertyIsEnumerable", "toLocaleString",
      "toString", "valueOf", "__defineGetter__", "__defineSetter__", "__lookupGetter__", "__lookupSetter__"}
  }

  /** So has every number. */
  ghost predicate NumberInherits(name: string) {
    Inherited(name) || name in {"toExponential", "toFixed", "toPrecision"}
  }

  /** Its members that are taken for zero: those it has not, and the prototype. */
  ghost predicate ZeroOfNumber(name: string) {
    name == "__proto__" || !NumberInherits(name)
  }

  /** All bytes are zero, except those of inner fields with the names of inherited functions. */
  ghost predicate Blank(t: CType, b: seq<Octet>)
    requires |b| == t.Size()
    decreases t, 1
  {
    if t.Scalar? then forall i :: 0 <= i < |b| ==> b[i] == 0
    else forall k :: 0 <= k < |t.fields| && ZeroOfNumber(t.fields[k].name) ==> BlankAt(t, b, k)
  }

  ghost predicate BlankAt(t: CType, b: seq<Octet>, k: nat)
    requires t.Struct? && k < |t.fields| && |b| == t.Size()
    decreases t, 0
  {
    SizesGrow(t, k + 1, |t.fields|);
    assert t.SizeTo(k + 1) == t.SizeTo(k) + t.fields[k].ctype.Size();
    Blank(t.fields[k].ctype, b[t.SizeTo(k)..t.SizeTo(k + 1)])
  }

  /** All numbers are zero, except inner ones with the names of inherited members. */
  ghost predicate Zero(t: CType, v: Value)
    decreases t, 1
  {
    if t.Scalar? then v == Num(Finite(0.0))
    else v.Object? && forall k :: 0 <= k < |t.fields| && !NumberInherits(t.fields[k].name) ==> ZeroAt(t, v, k)
  }

  ghost predicate ZeroAt(t: CType, v: Value, k: nat)
    requires t.Struct? && v.Object? && k < |t.fields|
    decreases t, 0
  {
    t.fields[k].name in v.members && Zero(t.fields[k].ctype, v.members[t.fields[k].name])
  }

  lemma {:induction false} ZeroBytes(n: nat)
    ensures forall i :: 0 <= i < n ==> Le(0, n)[i] == 0
  {
    if n > 0 {
      ZeroBytes(n - 1);
    }
  }

  lemma ZeroRounds(f: Format)
    requires f.Valid()
    ensures Floats.Value(f, 0) == 0.0 && Round(f, 0.0) == 0
  {
    assert Steps(f.base, 0) == 0;
    RoundExact(f, 0);
  }

  lemma ZeroStored(n: nat, kind: Kind)
    ensures Stored(Num(Finite(0.0)), n, kind) == 0 && Loaded(0, n, kind) == Finite(0.0)
  {
    RemainderUnique(0, Pow256(n), 0, 0);
    if kind.Float? {
      ZeroRounds(FormatOf(n));
    } else {
      assert Truncated(0.0) == 0;
    }
  }

  /** A missing member is zero. */
  lemma MissingMember(v: Value, name: string)
    requires if v.Object? then name !in v.members && !Inherited(name) else ZeroOfNumber(name)
    ensures v.Member(name) == Num(Finite(0.0))
    ensures !NumberInherits(name) || v.Object? ==> name != PROTO
  {
  }

  lemma {:induction false} ZeroIsBlank(t: CType)
    ensures Blank(t, Encode(t, Num(Finite(0.0))))
    decreases t
  {
    var zero := Num(Finite(0.0));
    if t.Scalar? {
      ZeroStored(t.bytes, t.kind);
      ZeroBytes(t.bytes);
    } else {
      forall k | 0 <= k < |t.fields| && ZeroOfNumber(t.fields[k].name) ensures BlankAt(t, Encode(t, zero), k) {
        MissingMember(zero, t.fields[k].name);
        ZeroIsBlank(t.fields[k].ctype);
        FieldIsBlank(t, zero, k);
      }
    }
  }

  lemma FieldIsBlank(t: CType, v: Value, k: nat)
    requires t.Struct? && k < |t.fields| && v.Member(t.fields[k].name) == Num(Finite(0.0))
    requires Blank(t.fields[k].ctype, Encode(t.fields[k].ctype, Num(Finite(0.0))))
    ensures BlankAt(t, Encode(t, v), k)
  {
    FieldBytes(t, v, k);
  }

  lemma FieldIsZero(t: CType, v: Value, k: nat)
    requires t.Struct? && t.NamesDiffer() && k < |t.fields| && t.fields[k].name != PROTO
    requires v.Member(t.fields[k].name) == Num(Finite(0.0))
    requires Zero(t.fields[k].ctype, Normal(t.fields[k].ctype, Num(Finite(0.0))))
    ensures ZeroAt(t, Normal(t, v), k)
  {
    NormalAt(t, v, |t.fields|, k);
  }

  lemma {:induction false} ZeroIsRead(t: CType)
    requires t.Valid()
    ensures Zero(t, Normal(t, Num(Finite(0.0))))
    decreases t
  {
    var zero := Num(Finite(0.0));
    if t.Scalar? {
      ZeroStored(t.bytes, t.kind);
    } else {
      forall k | 0 <= k < |t.fields| && !NumberInherits(t.fields[k].name) ensures ZeroAt(t, Normal(t, zero), k) {
        MissingMember(zero, t.fields[k].name);
        ZeroIsRead(t.fields[k].ctype);
        FieldIsZero(t, zero, k);
      }
    }
  }

  /** Field k has a member neither of its own nor inherited. */
  ghost predicate Missing(t: CType, v: Value, k: nat)
    requires t.Struct? && k < |t.fields|
  {
    v.Object? && t.fields[k].name !in v.members && !Inherited(t.fields[k].name)
  }

  ghost predicate MissingAreBlank(t: CType, v: Value, b: seq<Octet>)
    requires |b| == t.Size()
  {
    t.Struct? ==> forall k :: 0 <= k < |t.fields| && Missing(t, v, k) ==> BlankAt(t, b, k)
  }

  ghost predicate MissingAreZero(t: CType, v: Value, r: Value) {
    t.Struct? ==> r.Object? && forall k :: 0 <= k < |t.fields| && Missing(t, v, k) ==> ZeroAt(t, r, k)
  }

  /** Missing members are written as zero bytes, scalars and structures alike. */
  lemma MissingIsBlank(t: CType, v: Value)
    ensures MissingAreBlank(t, v, Encode(t, v))
  {
    if t.Struct? {
      forall k | 0 <= k < |t.fields| && Missing(t, v, k) ensures BlankAt(t, Encode(t, v), k) {
        MissingMember(v, t.fields[k].name);
        ZeroIsBlank(t.fields[k].ctype);
        FieldIsBlank(t, v, k);
      }
    }
  }

  /** They are read back as zero. */
  lemma MissingIsZero(t: CType, v: Value)
    requires t.Valid()
    ensures MissingAreZero(t, v, Decode(t, Encode(t, v)))
  {
    RoundTrip(t, v);
    if t.Struct? {
      forall k | 0 <= k < |t.fields| && Missing(t, v, k) ensures ZeroAt(t, Normal(t, v), k) {
        MissingMember(v, t.fields[k].name);
        ZeroIsRead(t.fields[k].ctype);
        FieldIsZero(t, v, k);
      }
    }
  }

  // ---------------------------------------------------------------- the buffer

  /** A buffer after bytes were written at an offset. */
  function Overwritten(b: seq<Octet>, offset: nat, bytes: seq<Octet>): (w: seq<Octet>)
    requires offset + |bytes| <= |b|
    ensures |w| == |b|
  {
    b[..offset] + bytes + b[offset + |bytes|..]
  }

  lemma NothingWritten(b: seq<Octet>, offset: nat)
    requires offset <= |b|
    ensures Overwritten(b, offset, []) == b
  {
  }

  lemma OverwrittenBehind(b: seq<Octet>, offset: nat, first: seq<Octet>, second: seq<Octet>)
    requires offset + |first| + |second| <= |b|
    ensures Overwritten(Overwritten(b, offset, first), offset + |first|, second)
         == Overwritten(b, offset, first + second)
  {
    var w := Overwritten(b, offset, first);
    assert w[..offset + |first|] == b[..offset] + first;
    assert w[offset + |first| + |second|..] == b[offset + |first| + |second|..];
  }

  /** Writes a number at an offset, lowest byte first. */
  method SetNumber(view: array<Octet>, offset: nat, x: nat, n: nat)
    requires offset + n <= view.Length && x < Pow256(n)
    modifies view
    ensures view[..] == Overwritten(old(view[..]), offset, Le(x, n))
  {
    var bytes := Le(x, n);
    forall i | 0 <= i < n {
      view[offset + i] := bytes[i];
    }
  }

  /** Writes a value at an offset: its encoding, and nothing else. */
  method Set(view: array<Octet>, t: CType, v: Value, offset: nat)
    requires offset + t.Size() <= view.Length
    modifies view
    ensures view[..] == Overwritten(old(view[..]), offset, Encode(t, v))
    ensures MissingAreBlank(t, v, view[offset..offset + t.Size()])
    decreases t, 2
  {
    if t.Scalar? {
      SetNumber(view, offset, Stored(v, t.bytes, t.kind), t.bytes);
    } else {
      SetFields(view, t, v, offset);
    }
    assert view[offset..offset + t.Size()] == Encode(t, v);
    MissingIsBlank(t, v);
  }

  lemma NextPlace(t: CType, k: nat)
    requires t.Struct? && k < |t.fields|
    ensures t.SizeTo(k + 1) == t.SizeTo(k) + t.fields[k].ctype.Size() <= t.Size()
  {
    SizesGrow(t, k + 1, |t.fields|);
  }

  /** Writes the fields one behind the other. */
  method SetFields(view: array<Octet>, t: CType, v: Value, offset: nat)
    requires t.Struct? && offset + t.Size() <= view.Length
    modifies view
    ensures view[..] == Overwritten(old(view[..]), offset, EncodeTo(t, v, |t.fields|))
    decreases t, 1
  {
    ghost var was := view[..];
    NothingWritten(was, offset);
    var bs, k := 0, 0;
    while k < |t.fields|
      invariant k <= |t.fields| && bs == t.SizeTo(k) <= t.Size()
      invariant view[..] == Overwritten(was, offset, EncodeTo(t, v, k))
    {
      NextPlace(t, k);
      SetField(view, t, v, offset, k, bs, was);
      bs := bs + t.fields[k].ctype.Size();
      k := k + 1;
    }
  }

  /** Writes field k behind the fields before it. */
  method SetField(view: array<Octet>, t: CType, v: Value, offset: nat, k: nat, bs: nat, ghost was: seq<Octet>)
    requires t.Struct? && k < |t.fields| && bs == t.SizeTo(k)
    requires offset + t.SizeTo(k + 1) <= view.Length == |was|
    requires view[..] == Overwritten(was, offset, EncodeTo(t, v, k))
    modifies view
    ensures view[..] == Overwritten(was, offset, EncodeTo(t, v, k + 1))
    decreases t, 0
  {
    var f, member := t.fields[k], v.Member(t.fields[k].name);
    ghost var done, field := EncodeTo(t, v, k), Encode(f.ctype, member);
    assert EncodeTo(t, v, k + 1) == done + field;
    OverwrittenBehind(was, offset, done, field);
    Set(view, f.ctype, member, bs + offset);
  }

  lemma Slice(s: seq<Octet>, offset: nat, n: nat, lo: nat, hi: nat)
    requires lo <= hi <= n && offset + n <= |s|
    ensures s[offset..offset + n][lo..hi] == s[offset + lo..offset + hi]
  {
    var a, b := s[offset..offset + n][lo..hi], s[offset + lo..offset + hi];
    assert forall i :: 0 <= i < hi - lo ==> a[i] == s[offset + lo + i] == b[i];
  }

  /** Reads a number at an offset. */
  method GetNumber(view: array<Octet>, offset: nat, n: nat) returns (x: nat)
    requires offset + n <= view.Length
    ensures x == FromLe(view[offset..offset + n])
  {
    x := 0;
    var i: nat := n;
    while i > 0
      invariant i <= n && x == FromLe(view[offset + i..offset + n])
    {
      i := i - 1;
      assert view[offset + i..offset + n] == [view[offset + i]] + view[offset + i + 1..offset + n];
      x := view[offset + i] + 256 * x;
    }
  }

  /** Reads a value at an offset. */
  method Get(view: array<Octet>, t: CType, offset: nat) returns (v: Value)
    requires offset + t.Size() <= view.Length
    ensures v == Decode(t, view[offset..offset + t.Size()])
    decreases t, 1
  {
    if t.Scalar? {
      var x := GetNumber(view, offset, t.bytes);
      return Num(Loaded(x, t.bytes, t.kind));
    }
    var data := GetFields(view, t, offset);
    return Object(data);
  }

  /** Reads the fields one behind the other. */
  method GetFields(view: array<Octet>, t: CType, offset: nat) returns (data: map<string, Value>)
    requires t.Struct? && offset + t.Size() <= view.Length
    ensures data == DecodeTo(t, view[offset..offset + t.Size()], |t.fields|)
    decreases t, 0
  {
    ghost var b := view[offset..offset + t.Size()];
    data := map[];
    var bs, k := 0, 0;
    while k < |t.fields|
      invariant k <= |t.fields| && bs == t.SizeTo(k) <= t.Size()
      invariant data == DecodeTo(t, b, k)
    {
      var f := t.fields[k];
      SizesGrow(t, k + 1, |t.fields|);
      Slice(view[..], offset, t.Size(), t.SizeTo(k), t.SizeTo(k + 1));
      var member := Get(view, f.ctype, bs + offset);
      data := Assigned(data, f.name, member);
      bs := bs + f.ctype.Size();
      k := k + 1;
    }
  }

  /** Getting after setting gives the value as the type sees it, and the value itself if it fits. */
  method SetThenGet(view: array<Octet>, t: CType, v: Value, offset: nat) returns (r: Value)
    requires t.Valid() && offset + t.Size() <= view.Length
    modifies view
    ensures r == Normal(t, v) && (r == v <==> WellTyped(t, v))
    ensures MissingAreZero(t, v, r)
    ensures view[..offset] == old(view[..offset])
    ensures view[offset + t.Size()..] == old(view[offset + t.Size()..])
  {
    Set(view, t, v, offset);
    assert view[offset..offset + t.Size()] == Encode(t, v);
    r := Get(view, t, offset);
    RoundTrip(t, v);
    ReadBack(t, v);
    MissingIsZero(t, v);
  }
}
