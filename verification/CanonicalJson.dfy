/**
 * Canonical JSON text: two values get the same text exactly when they are equal up to the order of
 * members, members whose value is undefined, and the sign of zero.
 */
module CanonicalJson {
  import opened Prelude

  // ---- Values --------------------------------------------------------------

  /** A UTF-16 code unit, and a string as JavaScript holds it, lone surrogates included. */
  type Unit = u: int | 0 <= u < 0x10000

  type Text = seq<Unit>

  predicate IsTokenUnit(u: Unit) {
    48 <= u <= 57 || u in {43, 45, 46, 101, 69}   // 0-9 + - . e E
  }

  /** How a finite number other than zero is written: a decimal token, a different one for each number. */
  type Token = t: Text | t != [] && (t[0] == 45 || 48 <= t[0] <= 57) && (forall i | 0 <= i < |t| :: IsTokenUnit(t[i]))
      && t != [48]
    witness [49]

  datatype Number = Zero(negative: bool) | Finite(token: Token) | NonFinite

  /** `Other` is a function, symbol or bigint. Members are an object's own enumerable properties, in any order. */
  datatype Json =
    | Null
    | Bool(value: bool)
    | Num(number: Number)
    | Str(text: Text)
    | Arr(items: seq<Json>)
    | Obj(members: seq<(Text, Json)>)
    | Undefined
    | Other

  /** The position of a key, or the length. */
  function IndexOf(members: seq<(Text, Json)>, key: Text): (i: nat)
    ensures i <= |members|
    ensures i < |members| ==> members[i].0 == key
    ensures forall j | 0 <= j < i :: members[j].0 != key
  {
    if members == [] || members[0].0 == key then 0 else IndexOf(members[1..], key) + 1
  }

  /** An object holds each key once. */
  predicate WellFormed(v: Json) {
    match v
    case Arr(items) => forall i | 0 <= i < |items| :: WellFormed(items[i])
    case Obj(members) =>
      && (forall i, j | 0 <= i < j < |members| :: members[i].0 != members[j].0)
      && (forall i | 0 <= i < |members| :: WellFormed(members[i].1))
    case _ => true
  }

  /** The key is present and its value is not undefined. */
  predicate Defined(members: seq<(Text, Json)>, key: Text) {
    var i := IndexOf(members, key);
    i < |members| && members[i].1 != Undefined
  }

  /** What canonical JSON can be written of: undefined may occur as a member's value only. */
  predicate Supported(v: Json) {
    match v
    case Num(number) => number != NonFinite
    case Arr(items) => forall i | 0 <= i < |items| :: Supported(items[i])
    case Obj(members) => forall i | 0 <= i < |members| :: members[i].1 == Undefined || Supported(members[i].1)
    case Undefined => false
    case Other => false
    case _ => true
  }

  /** Equal up to member order, undefined members and the sign of zero. */
  ghost predicate Same(a: Json, b: Json)
    decreases a
  {
    match a
    case Num(number) => b.Num? && (number == b.number || (number.Zero? && b.number.Zero?))
    case Arr(items) => b.Arr? && |items| == |b.items| && forall i | 0 <= i < |items| :: Same(items[i], b.items[i])
    case Obj(members) =>
      && b.Obj?
      && forall key ::
        && (Defined(members, key) <==> Defined(b.members, key))
        && (Defined(members, key) ==> Same(members[IndexOf(members, key)].1, b.members[IndexOf(b.members, key)].1))
    case _ => a == b
  }

  // ---- Key order -----------------------------------------------------------

  /** The order of `Array.prototype.sort`: by code units. */
  predicate Less(a: Text, b: Text) {
    b != [] && (a == [] || a[0] < b[0] || (a[0] == b[0] && Less(a[1..], b[1..])))
  }

  lemma {:induction false} LessTotal(a: Text, b: Text)
    ensures a == b || Less(a, b) || Less(b, a)
  {
    if a != [] && b != [] && a[0] == b[0] {
      LessTotal(a[1..], b[1..]);
      assert a == [a[0]] + a[1..] && b == [b[0]] + b[1..];
    }
  }

  lemma {:induction false} LessTransitive(a: Text, b: Text, c: Text)
    requires Less(a, b) && Less(b, c)
    ensures Less(a, c)
  {
    if a != [] && a[0] == b[0] && b[0] == c[0] {
      LessTransitive(a[1..], b[1..], c[1..]);
    }
  }

  lemma {:induction false} LessIrreflexive(a: Text)
    ensures !Less(a, a)
  {
    if a != [] {
      LessIrreflexive(a[1..]);
    }
  }

  /** A text comes first exactly when it has the smaller unit where the two first differ, or is a proper prefix. */
  lemma {:induction false} LessExactlyWhen(a: Text, b: Text)
    ensures Less(a, b) <==> exists i | 0 <= i <= |a| && i < |b| :: a[..i] == b[..i] && (i == |a| || a[i] < b[i])
  {
    if Less(a, b) {
      var i := LessFrom(a, b);
      assert 0 <= i <= |a| && i < |b| && a[..i] == b[..i] && (i == |a| || a[i] < b[i]);
    }
    forall i | 0 <= i <= |a| && i < |b| && a[..i] == b[..i] && (i == |a| || a[i] < b[i])
      ensures Less(a, b)
    {
      DiffersAt(a, b, i);
    }
  }

  lemma {:induction false} LessFrom(a: Text, b: Text) returns (i: nat)
    requires Less(a, b)
    ensures i <= |a| && i < |b| && a[..i] == b[..i] && (i == |a| || a[i] < b[i])
  {
    if a != [] && a[0] == b[0] {
      i := LessFrom(a[1..], b[1..]);
      i := i + 1;
      assert a[..i] == [a[0]] + a[1..][..i - 1] && b[..i] == [b[0]] + b[1..][..i - 1];
    } else {
      i := 0;
    }
  }

  lemma {:induction false} DiffersAt(a: Text, b: Text, i: nat)
    requires i <= |a| && i < |b| && a[..i] == b[..i] && (i == |a| || a[i] < b[i])
    ensures Less(a, b)
  {
    if i > 0 {
      assert a[0] == a[..i][0] == b[..i][0] == b[0];
      assert a[1..][..i - 1] == a[..i][1..] && b[1..][..i - 1] == b[..i][1..];
      DiffersAt(a[1..], b[1..], i - 1);
    }
  }

  predicate Sorted(keys: seq<Text>) {
    forall i, j | 0 <= i < j < |keys| :: Less(keys[i], keys[j])
  }

  function Insert(keys: seq<Text>, key: Text): seq<Text> {
    if keys == [] || Less(key, keys[0]) then [key] + keys else [keys[0]] + Insert(keys[1..], key)
  }

  function Sort(keys: seq<Text>): seq<Text> {
    if keys == [] then [] else Insert(Sort(keys[1..]), keys[0])
  }

  lemma {:induction false} InsertSorts(keys: seq<Text>, key: Text)
    requires Sorted(keys) && key !in keys
    ensures Sorted(Insert(keys, key))
    ensures forall k :: k in Insert(keys, key) <==> k == key || k in keys
  {
    if keys == [] {
    } else if Less(key, keys[0]) {
      forall j | 0 <= j < |keys|
        ensures Less(key, keys[j])
      {
        if j > 0 {
          LessTransitive(key, keys[0], keys[j]);
        }
      }
    } else {
      LessTotal(key, keys[0]);
      InsertSorts(keys[1..], key);
      var rest := Insert(keys[1..], key);
      forall j | 0 <= j < |rest|
        ensures Less(keys[0], rest[j])
      {
        assert rest[j] in rest;
      }
    }
  }

  lemma {:induction false} SortSorts(keys: seq<Text>)
    requires forall i, j | 0 <= i < j < |keys| :: keys[i] != keys[j]
    ensures Sorted(Sort(keys))
    ensures forall k :: k in Sort(keys) <==> k in keys
  {
    if keys != [] {
      SortSorts(keys[1..]);
      InsertSorts(Sort(keys[1..]), keys[0]);
    }
  }

  function Keys(members: seq<(Text, Json)>): (keys: seq<Text>)
    ensures |keys| == |members| && forall i | 0 <= i < |keys| :: keys[i] == members[i].0
  {
    seq(|members|, i requires 0 <= i < |members| => members[i].0)
  }

  // ---- Text ----------------------------------------------------------------

  const QUOTE: Unit := 34
  const COMMA: Unit := 44
  const COLON: Unit := 58
  const BACKSLASH: Unit := 92

  predicate IsHigh(u: Unit) {
    0xD800 <= u <= 0xDBFF
  }

  predicate IsLow(u: Unit) {
    0xDC00 <= u <= 0xDFFF
  }

  /** A surrogate that has no partner next to it. */
  predicate IsLone(s: Text, i: nat)
    requires i < |s|
  {
    || (IsHigh(s[i]) && !(i + 1 < |s| && IsLow(s[i + 1])))
    || (IsLow(s[i]) && !(i > 0 && IsHigh(s[i - 1])))
  }

  function Hex(d: int): Unit
    requires 0 <= d < 16
  {
    if d < 10 then 48 + d else 87 + d
  }

  function Escape(u: Unit): Text {
    if u == 8 then [BACKSLASH, 98]
    else if u == 9 then [BACKSLASH, 116]
    else if u == 10 then [BACKSLASH, 110]
    else if u == 12 then [BACKSLASH, 102]
    else if u == 13 then [BACKSLASH, 114]
    else if u == QUOTE then [BACKSLASH, QUOTE]
    else if u == BACKSLASH then [BACKSLASH, BACKSLASH]
    else [BACKSLASH, 117, Hex(u / 16 / 16 / 16), Hex(u / 16 / 16 % 16), Hex(u / 16 % 16), Hex(u % 16)]
  }

  /** The unit stands for itself in a string literal. */
  predicate IsRaw(s: Text, i: nat)
    requires i < |s|
  {
    s[i] >= 32 && s[i] != QUOTE && s[i] != BACKSLASH && !IsLone(s, i)
  }

  function UnitText(s: Text, i: nat): Text
    requires i < |s|
  {
    if IsRaw(s, i) then [s[i]] else Escape(s[i])
  }

  /** The characters of a string literal from position i on (section 7 of RFC 8259). */
  function Escaped(s: Text, i: nat): Text
    requires i <= |s|
    decreases |s| - i
  {
    if i == |s| then [] else UnitText(s, i) + Escaped(s, i + 1)
  }

  /** `JSON.stringify` of a string. */
  function Quoted(s: Text): Text {
    [QUOTE] + Escaped(s, 0) + [QUOTE]
  }

  function NumberText(number: Number): Text {
    if number.Finite? then number.token else [48]
  }

  function LiteralText(v: Json): Text {
    match v
    case Null => [110, 117, 108, 108]
    case Bool(value) => if value then [116, 114, 117, 101] else [102, 97, 108, 115, 101]
    case Num(number) => NumberText(number)
    case Str(text) => Quoted(text)
    case _ => []
  }

  // ---- canonicalize --------------------------------------------------------

  datatype Refusal = NonFiniteNumber | UnsupportedType

  function Canonicalize(v: Json): Result<Text, Refusal>
    decreases v, 1, 0
  {
    match v
    case Num(NonFinite) => Err(NonFiniteNumber)
    case Arr(_) =>
      var items :- CanonicalItems(v, 0);
      Ok([91] + items)
    case Obj(members) =>
      var text :- CanonicalMembers(v, Sort(Keys(members)), false);
      Ok([123] + text)
    case Undefined => Err(UnsupportedType)
    case Other => Err(UnsupportedType)
    case _ => Ok(LiteralText(v))
  }

  /** The items from i on, joined by commas, and the closing bracket. */
  function CanonicalItems(v: Json, i: nat): Result<Text, Refusal>
    requires v.Arr? && i <= |v.items|
    decreases v, 0, |v.items| - i
  {
    if i == |v.items| then Ok([93])
    else
      var item :- Canonicalize(v.items[i]);
      var rest :- CanonicalItems(v, i + 1);
      Ok((if i == 0 then [] else [COMMA]) + item + rest)
  }

  /** The members of the given keys, joined by commas, undefined ones left out, and the closing brace. */
  function CanonicalMembers(v: Json, keys: seq<Text>, comma: bool): Result<Text, Refusal>
    requires v.Obj?
    decreases v, 0, |keys|
  {
    if keys == [] then Ok([125])
    else
      var i := IndexOf(v.members, keys[0]);
      if i == |v.members| || v.members[i].1 == Undefined then CanonicalMembers(v, keys[1..], comma)
      else
        var value :- Canonicalize(v.members[i].1);
        var rest :- CanonicalMembers(v, keys[1..], true);
        Ok((if comma then [COMMA] else []) + Quoted(keys[0]) + [COLON] + value + rest)
  }

  // ---- Normal form ---------------------------------------------------------

  /** The value with sorted keys, without undefined members, and with one zero. */
  function Normal(v: Json): Json
    decreases v, 1, 0
  {
    match v
    case Num(number) => if number.Zero? then Num(Zero(false)) else v
    case Arr(_) => Arr(NormalItems(v, 0))
    case Obj(members) => Obj(NormalMembers(v, Sort(Keys(members))))
    case _ => v
  }

  function NormalItems(v: Json, i: nat): (items: seq<Json>)
    requires v.Arr? && i <= |v.items|
    ensures |items| == |v.items| - i
    decreases v, 0, |v.items| - i
  {
    if i == |v.items| then [] else [Normal(v.items[i])] + NormalItems(v, i + 1)
  }

  function NormalMembers(v: Json, keys: seq<Text>): seq<(Text, Json)>
    requires v.Obj?
    decreases v, 0, |keys|
  {
    if keys == [] then []
    else
      var i := IndexOf(v.members, keys[0]);
      if i == |v.members| || v.members[i].1 == Undefined then NormalMembers(v, keys[1..])
      else [(keys[0], Normal(v.members[i].1))] + NormalMembers(v, keys[1..])
  }

  /** Values whose plain text can be written: nothing undefined, unsupported or non-finite inside. */
  predicate Writable(v: Json) {
    match v
    case Num(number) => number.Finite? || number == Zero(false)
    case Arr(items) => forall i | 0 <= i < |items| :: Writable(items[i])
    case Obj(members) => forall i | 0 <= i < |members| :: Writable(members[i].1)
    case Undefined => false
    case Other => false
    case _ => true
  }

  /** The text of a value, in the order it stands. */
  function Write(v: Json): Text
    decreases v, 1, 0
  {
    match v
    case Arr(_) => [91] + WriteItems(v, 0)
    case Obj(_) => [123] + WriteMembers(v, 0)
    case _ => LiteralText(v)
  }

  function WriteItems(v: Json, i: nat): Text
    requires v.Arr? && i <= |v.items|
    decreases v, 0, |v.items| - i
  {
    if i == |v.items| then [93] else (if i == 0 then [] else [COMMA]) + Write(v.items[i]) + WriteItems(v, i + 1)
  }

  function WriteMembers(v: Json, i: nat): Text
    requires v.Obj? && i <= |v.members|
    decreases v, 0, |v.members| - i
  {
    if i == |v.members| then [125]
    else
      (if i == 0 then [] else [COMMA]) + Quoted(v.members[i].0) + [COLON] + Write(v.members[i].1)
          + WriteMembers(v, i + 1)
  }

  // ---- The text is that of the normal form ---------------------------------

  lemma {:induction false} KeyAt(members: seq<(Text, Json)>, i: nat)
    requires i < |members| && forall j | 0 <= j < i :: members[j].0 != members[i].0
    ensures IndexOf(members, members[i].0) == i
  {
  }

  lemma {:induction false} NormalItemsAt(v: Json, i: nat, j: nat)
    requires v.Arr? && i <= j < |v.items|
    ensures NormalItems(v, i)[j - i] == Normal(v.items[j])
    decreases j - i
  {
    if i < j {
      NormalItemsAt(v, i + 1, j);
    }
  }

  lemma {:induction false} CanonicalIsNormal(v: Json)
    requires WellFormed(v)
    ensures Canonicalize(v).Ok? <==> Supported(v)
    ensures Supported(v) ==> Writable(Normal(v)) && Canonicalize(v) == Ok(Write(Normal(v)))
    decreases v, 1, 0
  {
    match v
    case Arr(items) => ItemsAreNormal(v, 0);
    case Obj(members) =>
      MembersAreNormal(v, Sort(Keys(members)), Normal(v), 0);
      SupportedKeys(v);
    case _ =>
  }

  lemma {:induction false} ItemsAreNormal(v: Json, i: nat)
    requires v.Arr? && WellFormed(v) && i <= |v.items|
    ensures CanonicalItems(v, i).Ok? <==> forall j | i <= j < |v.items| :: Supported(v.items[j])
    ensures CanonicalItems(v, i).Ok? ==> CanonicalItems(v, i) == Ok(WriteItems(Normal(v), i))
    ensures CanonicalItems(v, i).Ok? ==> forall j | i <= j < |v.items| :: Writable(Normal(v).items[j])
    decreases v, 0, |v.items| - i
  {
    if i < |v.items| {
      CanonicalIsNormal(v.items[i]);
      ItemsAreNormal(v, i + 1);
      NormalItemsAt(v, 0, i);
    }
  }

  /** The value of a key, if there is one to be written. */
  predicate KeySupported(v: Json, key: Text)
    requires v.Obj?
  {
    Defined(v.members, key) ==> Supported(v.members[IndexOf(v.members, key)].1)
  }

  lemma {:induction false} SupportedKeys(v: Json)
    requires v.Obj? && WellFormed(v)
    ensures Supported(v) <==> forall key | key in Sort(Keys(v.members)) :: KeySupported(v, key)
  {
    SortSorts(Keys(v.members));
    forall i | 0 <= i < |v.members|
      ensures IndexOf(v.members, v.members[i].0) == i && Keys(v.members)[i] in Sort(Keys(v.members))
    {
      KeyAt(v.members, i);
    }
    hide Sort, IndexOf;
    if forall key | key in Sort(Keys(v.members)) :: KeySupported(v, key) {
      forall i | 0 <= i < |v.members|
        ensures v.members[i].1 == Undefined || Supported(v.members[i].1)
      {
        assert KeySupported(v, v.members[i].0);
      }
    }
  }

  lemma {:induction false} MembersAreNormal(v: Json, keys: seq<Text>, normal: Json, i: nat)
    requires v.Obj? && WellFormed(v) && normal.Obj? && i <= |normal.members|
    requires normal.members[i..] == NormalMembers(v, keys)
    ensures CanonicalMembers(v, keys, i > 0).Ok? <==> forall key | key in keys :: KeySupported(v, key)
    ensures CanonicalMembers(v, keys, i > 0).Ok? ==> CanonicalMembers(v, keys, i > 0) == Ok(WriteMembers(normal, i))
    ensures CanonicalMembers(v, keys, i > 0).Ok? ==> forall j | i <= j < |normal.members| ::
      Writable(normal.members[j].1)
    decreases v, 0, |keys|
  {
    hide Normal, Write, Writable, Quoted, Canonicalize, Supported;
    if keys != [] {
      assert forall key :: key in keys <==> key == keys[0] || key in keys[1..];
      var k := IndexOf(v.members, keys[0]);
      if k < |v.members| && v.members[k].1 != Undefined {
        CanonicalIsNormal(v.members[k].1);
        assert KeySupported(v, keys[0]) <==> Supported(v.members[k].1);
        assert normal.members[i] == normal.members[i..][0] && normal.members[i + 1..] == normal.members[i..][1..];
        MembersAreNormal(v, keys[1..], normal, i + 1);
      } else {
        MembersAreNormal(v, keys[1..], normal, i);
      }
    }
  }

  // ---- Unique reading ------------------------------------------------------

  lemma {:induction false} Cut(a: Text, b: Text, c: Text, d: Text)
    requires a + b == c + d && |a| == |c|
    ensures a == c && b == d
  {
    assert a == (a + b)[..|a|] && c == (c + d)[..|c|];
    assert b == (a + b)[|a|..] && d == (c + d)[|c|..];
  }

  lemma {:induction false} SameDigits(u: nat, w: nat)
    requires u / 16 == w / 16 && u % 16 == w % 16
    ensures u == w
  {
  }

  lemma {:induction false} HexInjective(u: Unit, w: Unit)
    requires Hex(u / 16 / 16 / 16) == Hex(w / 16 / 16 / 16) && Hex(u / 16 / 16 % 16) == Hex(w / 16 / 16 % 16)
    requires Hex(u / 16 % 16) == Hex(w / 16 % 16) && Hex(u % 16) == Hex(w % 16)
    ensures u == w
  {
    SameDigits(u / 16 / 16, w / 16 / 16);
    SameDigits(u / 16, w / 16);
    SameDigits(u, w);
  }

  lemma {:induction false} UniqueEscape(u: Unit, w: Unit, a: Text, b: Text)
    requires Escape(u) + a == Escape(w) + b
    ensures u == w && a == b
  {
    assert (Escape(u) + a)[1] == (Escape(w) + b)[1];
    assert Escape(u)[1] == Escape(w)[1];
    Cut(Escape(u), a, Escape(w), b);
    if |Escape(u)| == 6 {
      HexInjective(u, w);
    }
  }

  lemma {:induction false} UniqueUnit(s: Text, t: Text, i: nat, a: Text, b: Text)
    requires i < |s| && i < |t| && UnitText(s, i) + a == UnitText(t, i) + b
    ensures s[i] == t[i] && a == b
  {
    assert (UnitText(s, i) + a)[0] == UnitText(s, i)[0] && (UnitText(t, i) + b)[0] == UnitText(t, i)[0];
    hide Escape, IsLone;
    if IsRaw(s, i) {
      EscapeStarts(t[i]);
      Cut(UnitText(s, i), a, UnitText(t, i), b);
    } else {
      EscapeStarts(s[i]);
      UniqueEscape(s[i], t[i], a, b);
    }
  }

  lemma {:induction false} EscapeStarts(u: Unit)
    ensures Escape(u) != [] && Escape(u)[0] == BACKSLASH
  {
  }

  lemma {:induction false} UnitIsNotQuote(s: Text, i: nat)
    requires i < |s|
    ensures UnitText(s, i) != [] && UnitText(s, i)[0] != QUOTE
  {
    EscapeStarts(s[i]);
  }

  lemma {:induction false} UniqueEscaped(s: Text, t: Text, i: nat, a: Text, b: Text)
    requires i <= |s| && i <= |t| && s[..i] == t[..i]
    requires Escaped(s, i) + ([QUOTE] + a) == Escaped(t, i) + ([QUOTE] + b)
    ensures s == t && a == b
    decreases |s| - i
  {
    hide UnitText;
    if i < |s| && i < |t| {
      var more, most := Escaped(s, i + 1) + ([QUOTE] + a), Escaped(t, i + 1) + ([QUOTE] + b);
      assert Escaped(s, i) + ([QUOTE] + a) == UnitText(s, i) + more;
      assert Escaped(t, i) + ([QUOTE] + b) == UnitText(t, i) + most;
      UniqueUnit(s, t, i, more, most);
      assert s[..i + 1] == s[..i] + [s[i]] && t[..i + 1] == t[..i] + [t[i]];
      UniqueEscaped(s, t, i + 1, a, b);
    } else {
      EscapedEnds(s, t, i, a, b);
    }
  }

  lemma {:induction false} EscapedFirst(s: Text, i: nat, a: Text)
    requires i <= |s|
    ensures var text := Escaped(s, i) + ([QUOTE] + a);
      text != [] && (text[0] == QUOTE <==> i == |s|) && (i == |s| ==> text[1..] == a)
  {
    hide UnitText;
    if i < |s| {
      UnitIsNotQuote(s, i);
      assert (Escaped(s, i) + ([QUOTE] + a))[0] == UnitText(s, i)[0];
    }
  }

  /** One string ends at i: the other one does too. */
  lemma {:induction false} EscapedEnds(s: Text, t: Text, i: nat, a: Text, b: Text)
    requires i <= |s| && i <= |t| && s[..i] == t[..i] && (i == |s| || i == |t|)
    requires Escaped(s, i) + ([QUOTE] + a) == Escaped(t, i) + ([QUOTE] + b)
    ensures s == t && a == b
  {
    EscapedFirst(s, i, a);
    EscapedFirst(t, i, b);
    assert s[..|s|] == s && t[..|t|] == t;
  }

  lemma {:induction false} UniqueQuoted(s: Text, t: Text, a: Text, b: Text)
    requires Quoted(s) + a == Quoted(t) + b
    ensures s == t && a == b
  {
    hide Escaped;
    var left, right := Escaped(s, 0) + ([QUOTE] + a), Escaped(t, 0) + ([QUOTE] + b);
    assert Quoted(s) + a == [QUOTE] + left && Quoted(t) + b == [QUOTE] + right;
    Cut([QUOTE], left, [QUOTE], right);
    UniqueEscaped(s, t, 0, a, b);
  }

  /** What may follow a value inside a text. */
  predicate Stops(rest: Text) {
    rest == [] || rest[0] in {COMMA, 93, 125}
  }

  lemma {:induction false} UniqueToken(s: Text, t: Text, a: Text, b: Text)
    requires (forall i | 0 <= i < |s| :: IsTokenUnit(s[i])) && (forall i | 0 <= i < |t| :: IsTokenUnit(t[i]))
    requires Stops(a) && Stops(b) && s + a == t + b
    ensures s == t && a == b
  {
    if s == [] || t == [] {
      assert (s + a) == a || (t + b) == b;
    } else {
      assert (s + a)[0] == s[0] && (t + b)[0] == t[0];
      assert (s + a)[1..] == s[1..] + a && (t + b)[1..] == t[1..] + b;
      UniqueToken(s[1..], t[1..], a, b);
      assert s == [s[0]] + s[1..] && t == [t[0]] + t[1..];
    }
  }

  /** The first unit of a text tells what kind of value it is. */
  function KindOf(first: Unit): int {
    if first == 110 then 0
    else if first == 116 then 1
    else if first == 102 then 2
    else if first == QUOTE then 3
    else if first == 91 then 4
    else if first == 123 then 5
    else 6
  }

  function Kind(v: Json): int {
    match v
    case Null => 0
    case Bool(value) => if value then 1 else 2
    case Str(_) => 3
    case Arr(_) => 4
    case Obj(_) => 5
    case _ => 6
  }

  lemma {:induction false} FirstUnit(v: Json)
    requires Writable(v)
    ensures Write(v) != [] && KindOf(Write(v)[0]) == Kind(v)
    ensures Write(v)[0] != 93 && Write(v)[0] != 125 && Write(v)[0] != COMMA
  {
    hide Escaped, WriteItems, WriteMembers;
  }

  lemma {:induction false} TailStops(v: Json, i: nat, rest: Text)
    requires v.Arr? && i <= |v.items|
    ensures i > 0 ==> Stops(WriteItems(v, i) + rest)
  {
    hide Write;
  }

  lemma {:induction false} MemberTailStops(v: Json, i: nat, rest: Text)
    requires v.Obj? && i <= |v.members|
    ensures i > 0 ==> Stops(WriteMembers(v, i) + rest)
  {
    hide Write, Quoted;
  }

  lemma {:induction false} ContainerText(v: Json, rest: Text)
    ensures v.Arr? ==> Write(v) + rest == [91] + (WriteItems(v, 0) + rest)
    ensures v.Obj? ==> Write(v) + rest == [123] + (WriteMembers(v, 0) + rest)
    ensures v.Num? ==> Write(v) == NumberText(v.number)
    ensures v.Str? ==> Write(v) == Quoted(v.text)
  {
    hide WriteItems, WriteMembers, Quoted, NumberText;
  }

  lemma {:induction false} UniqueLiteral(x: Json, y: Json, a: Text, b: Text)
    requires (x.Null? || x.Bool?) && Kind(x) == Kind(y) && Write(x) + a == Write(y) + b
    ensures x == y && a == b
  {
    Cut(Write(x), a, Write(y), b);
  }

  /** Two values whose texts start a common text are the same value. */
  lemma {:induction false} UniqueReading(x: Json, y: Json, a: Text, b: Text)
    requires Writable(x) && Writable(y) && Stops(a) && Stops(b)
    requires Write(x) + a == Write(y) + b
    ensures x == y && a == b
    decreases x, 1, 0
  {
    hide Write, WriteItems, WriteMembers, Quoted;
    SameKind(x, y, a, b);
    ContainerText(x, a);
    ContainerText(y, b);
    if x.Num? {
      TokensOf(x.number);
      TokensOf(y.number);
      UniqueToken(NumberText(x.number), NumberText(y.number), a, b);
    } else if x.Str? {
      UniqueQuoted(x.text, y.text, a, b);
    } else if x.Arr? {
      Cut([91], WriteItems(x, 0) + a, [91], WriteItems(y, 0) + b);
      UniqueItems(x, y, 0, a, b);
    } else if x.Obj? {
      Cut([123], WriteMembers(x, 0) + a, [123], WriteMembers(y, 0) + b);
      UniqueMembers(x, y, 0, a, b);
    } else {
      UniqueLiteral(x, y, a, b);
    }
  }

  lemma {:induction false} SameKind(x: Json, y: Json, a: Text, b: Text)
    requires Writable(x) && Writable(y) && Write(x) + a == Write(y) + b
    ensures Kind(x) == Kind(y)
  {
    hide Write, Writable, Kind, KindOf;
    FirstUnit(x);
    FirstUnit(y);
    assert (Write(x) + a)[0] == Write(x)[0] && (Write(y) + b)[0] == Write(y)[0];
  }

  lemma {:induction false} TokensOf(number: Number)
    requires number.Finite? || number == Zero(false)
    ensures forall i | 0 <= i < |NumberText(number)| :: IsTokenUnit(NumberText(number)[i])
    ensures NumberText(number) == [48] <==> number == Zero(false)
  {
  }

  /** The text of items from i on: the end of the list, or a separator, an item and the rest. */
  lemma {:induction false} ItemsText(v: Json, i: nat, rest: Text)
    requires v.Arr? && i < |v.items|
    ensures WriteItems(v, i) + rest
      == (if i == 0 then [] else [COMMA]) + (Write(v.items[i]) + (WriteItems(v, i + 1) + rest))
  {
    hide Write;
    assert [] + (Write(v.items[i]) + (WriteItems(v, i + 1) + rest))
        == Write(v.items[i]) + (WriteItems(v, i + 1) + rest);
  }

  lemma {:induction false} ItemsFirst(v: Json, i: nat, rest: Text)
    requires v.Arr? && Writable(v) && i <= |v.items|
    ensures WriteItems(v, i) + rest != []
    ensures (WriteItems(v, i) + rest)[0] == 93 <==> i == |v.items|
    ensures i == |v.items| ==> (WriteItems(v, i) + rest)[1..] == rest
  {
    hide Write;
    if i < |v.items| {
      FirstUnit(v.items[i]);
      ItemsText(v, i, rest);
    }
  }

  lemma {:induction false} UniqueItems(x: Json, y: Json, i: nat, a: Text, b: Text)
    requires x.Arr? && y.Arr? && Writable(x) && Writable(y)
    requires i <= |x.items| && i <= |y.items| && x.items[..i] == y.items[..i]
    requires WriteItems(x, i) + a == WriteItems(y, i) + b
    ensures x.items == y.items && a == b
    decreases x, 0, |x.items| - i
  {
    hide Write, WriteItems;
    ItemsFirst(x, i, a);
    ItemsFirst(y, i, b);
    if i == |x.items| {
      assert x.items[..i] == x.items && y.items[..i] == y.items;
    } else {
      var s, t := WriteItems(x, i + 1) + a, WriteItems(y, i + 1) + b;
      ItemsText(x, i, a);
      ItemsText(y, i, b);
      var comma: Text := if i == 0 then [] else [COMMA];
      Cut(comma, Write(x.items[i]) + s, comma, Write(y.items[i]) + t);
      TailStops(x, i + 1, a);
      TailStops(y, i + 1, b);
      UniqueReading(x.items[i], y.items[i], s, t);
      assert x.items[..i + 1] == x.items[..i] + [x.items[i]] && y.items[..i + 1] == y.items[..i] + [y.items[i]];
      UniqueItems(x, y, i + 1, a, b);
    }
  }

  lemma {:induction false} MembersText(v: Json, i: nat, rest: Text)
    requires v.Obj? && i < |v.members|
    ensures WriteMembers(v, i) + rest
      == (if i == 0 then [] else [COMMA])
         + (Quoted(v.members[i].0) + ([COLON] + (Write(v.members[i].1) + (WriteMembers(v, i + 1) + rest))))
  {
    hide Write, Quoted;
    var tail := Quoted(v.members[i].0) + ([COLON] + (Write(v.members[i].1) + (WriteMembers(v, i + 1) + rest)));
    assert [] + tail == tail;
  }

  lemma {:induction false} MembersFirst(v: Json, i: nat, rest: Text)
    requires v.Obj? && i <= |v.members|
    ensures WriteMembers(v, i) + rest != []
    ensures (WriteMembers(v, i) + rest)[0] == 125 <==> i == |v.members|
    ensures i == |v.members| ==> (WriteMembers(v, i) + rest)[1..] == rest
  {
    hide Write, Escaped;
    if i < |v.members| {
      MembersText(v, i, rest);
    }
  }

  lemma {:induction false} UniqueMembers(x: Json, y: Json, i: nat, a: Text, b: Text)
    requires x.Obj? && y.Obj? && Writable(x) && Writable(y)
    requires i <= |x.members| && i <= |y.members| && x.members[..i] == y.members[..i]
    requires WriteMembers(x, i) + a == WriteMembers(y, i) + b
    ensures x.members == y.members && a == b
    decreases x, 0, |x.members| - i
  {
    hide Write, WriteMembers, Quoted;
    MembersFirst(x, i, a);
    MembersFirst(y, i, b);
    if i == |x.members| {
      assert x.members[..i] == x.members && y.members[..i] == y.members;
    } else {
      var s, t := WriteMembers(x, i + 1) + a, WriteMembers(y, i + 1) + b;
      MembersText(x, i, a);
      MembersText(y, i, b);
      UniqueMember(if i == 0 then [] else [COMMA], x.members[i], y.members[i], s, t);
      MemberTailStops(x, i + 1, a);
      MemberTailStops(y, i + 1, b);
      UniqueReading(x.members[i].1, y.members[i].1, s, t);
      assert x.members[..i + 1] == x.members[..i] + [x.members[i]]
          && y.members[..i + 1] == y.members[..i] + [y.members[i]];
      UniqueMembers(x, y, i + 1, a, b);
    }
  }

  /** The key of a member and the colon can be read off. */
  lemma {:induction false} UniqueMember(comma: Text, p: (Text, Json), q: (Text, Json), s: Text, t: Text)
    requires comma + (Quoted(p.0) + ([COLON] + (Write(p.1) + s)))
      == comma + (Quoted(q.0) + ([COLON] + (Write(q.1) + t)))
    ensures p.0 == q.0 && Write(p.1) + s == Write(q.1) + t
  {
    hide Write, Quoted;
    Cut(comma, Quoted(p.0) + ([COLON] + (Write(p.1) + s)), comma, Quoted(q.0) + ([COLON] + (Write(q.1) + t)));
    UniqueQuoted(p.0, q.0, [COLON] + (Write(p.1) + s), [COLON] + (Write(q.1) + t));
    Cut([COLON], Write(p.1) + s, [COLON], Write(q.1) + t);
  }

  // ---- Equal normal forms --------------------------------------------------

  predicate SortedMembers(members: seq<(Text, Json)>) {
    forall i, j | 0 <= i < j < |members| :: Less(members[i].0, members[j].0)
  }

  /** The members of the normal form: those of the given keys that are defined, under their keys. */
  lemma {:induction false} NormalMembersAre(v: Json, keys: seq<Text>)
    requires v.Obj? && Sorted(keys)
    ensures var normal := NormalMembers(v, keys);
      && SortedMembers(normal)
      && (forall j | 0 <= j < |normal| ::
            && normal[j].0 in keys && Defined(v.members, normal[j].0)
            && normal[j].1 == Normal(v.members[IndexOf(v.members, normal[j].0)].1))
      && (forall key | key in keys && Defined(v.members, key) :: IndexOf(normal, key) < |normal|)
  {
    hide Normal, Less, IndexOf;
    if keys != [] {
      var rest := NormalMembers(v, keys[1..]);
      NormalMembersAre(v, keys[1..]);
      assert forall key | key in keys[1..] :: Less(keys[0], key);
      if Defined(v.members, keys[0]) {
        var first := (keys[0], Normal(v.members[IndexOf(v.members, keys[0])].1));
        assert NormalMembers(v, keys) == [first] + rest;
        forall key | key in keys && Defined(v.members, key)
          ensures IndexOf([first] + rest, key) < |[first] + rest|
        {
          IndexAfter(first, rest, key);
        }
      }
    }
  }

  lemma {:induction false} IndexAfter(first: (Text, Json), rest: seq<(Text, Json)>, key: Text)
    ensures IndexOf([first] + rest, key) == if first.0 == key then 0 else IndexOf(rest, key) + 1
  {
    assert ([first] + rest)[1..] == rest;
  }

  lemma {:induction false} HeadFirst(a: seq<(Text, Json)>, m: (Text, Json))
    requires SortedMembers(a) && m in a
    ensures m == a[0] || Less(a[0].0, m.0)
  {
    hide Less;
  }

  lemma {:induction false} TailMembers(a: seq<(Text, Json)>)
    requires SortedMembers(a) && a != []
    ensures forall m :: m in a[1..] <==> m in a && m != a[0]
    ensures SortedMembers(a[1..])
  {
    hide Less;
    LessIrreflexive(a[0].0);
    assert forall m :: m in a <==> m == a[0] || m in a[1..];
  }

  /** Sorted member lists with the same members are the same list. */
  lemma {:induction false} SortedEqual(a: seq<(Text, Json)>, b: seq<(Text, Json)>)
    requires SortedMembers(a) && SortedMembers(b)
    requires forall m :: m in a <==> m in b
    ensures a == b
  {
    hide Less, SortedMembers;
    assert a != [] ==> a[0] in a && a[0] in b;
    assert b != [] ==> b[0] in b && b[0] in a;
    if a != [] && b != [] {
      HeadFirst(a, b[0]);
      HeadFirst(b, a[0]);
      if Less(a[0].0, b[0].0) && Less(b[0].0, a[0].0) {
        LessTransitive(a[0].0, b[0].0, a[0].0);
      }
      LessIrreflexive(a[0].0);
      TailMembers(a);
      TailMembers(b);
      SortedEqual(a[1..], b[1..]);
      assert a == [a[0]] + a[1..] && b == [b[0]] + b[1..];
    }
  }

  /** The members of an object's normal form, key by key. */
  lemma {:induction false} NormalMember(v: Json)
    requires v.Obj? && WellFormed(v)
    ensures SortedMembers(Normal(v).members)
    ensures forall m :: m in Normal(v).members <==> HasNormal(v, m)
  {
    var keys := Sort(Keys(v.members));
    SortSorts(Keys(v.members));
    NormalMembersAre(v, keys);
    hide Sort, NormalMembers, Less, Normal, IndexOf;
    forall m | HasNormal(v, m)
      ensures m in NormalMembers(v, keys)
    {
      KeyKnown(v.members, m.0);
      var j := IndexOf(NormalMembers(v, keys), m.0);
      assert NormalMembers(v, keys)[j] == m;
    }
    NormalObject(v);
  }

  lemma {:induction false} NormalObject(v: Json)
    requires v.Obj?
    ensures Normal(v) == Obj(NormalMembers(v, Sort(Keys(v.members))))
  {
  }

  /** The key of m is defined in v, and the value of m is the normal form of its value. */
  ghost predicate HasNormal(v: Json, m: (Text, Json))
    requires v.Obj?
  {
    Defined(v.members, m.0) && m.1 == Normal(v.members[IndexOf(v.members, m.0)].1)
  }

  lemma {:induction false} KeyKnown(members: seq<(Text, Json)>, key: Text)
    ensures Defined(members, key) ==> key in Keys(members)
  {
    var i := IndexOf(members, key);
    if i < |members| {
      assert Keys(members)[i] == key;
    }
  }

  /** Two values have the same normal form exactly when they are the same up to order, undefined members and zeros. */
  lemma {:induction false} NormalExactlySame(a: Json, b: Json)
    requires WellFormed(a) && WellFormed(b)
    ensures Normal(a) == Normal(b) <==> Same(a, b)
    decreases a
  {
    if a.Arr? && b.Arr? {
      SameItems(a, b);
    } else if a.Obj? && b.Obj? {
      SameMembers(a, b);
    }
  }

  lemma {:induction false} SameItems(a: Json, b: Json)
    requires a.Arr? && b.Arr? && WellFormed(a) && WellFormed(b)
    ensures Normal(a) == Normal(b) <==> Same(a, b)
    decreases a, 0
  {
    var x, y := NormalItems(a, 0), NormalItems(b, 0);
    forall i | 0 <= i < |a.items| && i < |b.items|
      ensures x[i] == y[i] <==> Same(a.items[i], b.items[i])
    {
      NormalItemsAt(a, 0, i);
      NormalItemsAt(b, 0, i);
      NormalExactlySame(a.items[i], b.items[i]);
    }
    hide NormalItems;
  }

  /** The values of two keys, present on both sides, have the same normal form exactly when they are the same. */
  ghost predicate KeyExact(a: Json, b: Json, key: Text)
    requires a.Obj? && b.Obj?
  {
    Defined(a.members, key) && Defined(b.members, key) ==>
      var x, y := a.members[IndexOf(a.members, key)].1, b.members[IndexOf(b.members, key)].1;
      Normal(x) == Normal(y) <==> Same(x, y)
  }

  lemma {:induction false} SameMembers(a: Json, b: Json)
    requires a.Obj? && b.Obj? && WellFormed(a) && WellFormed(b)
    ensures Normal(a) == Normal(b) <==> Same(a, b)
    decreases a, 0
  {
    forall key
      ensures KeyExact(a, b, key)
    {
      if Defined(a.members, key) && Defined(b.members, key) {
        NormalExactlySame(a.members[IndexOf(a.members, key)].1, b.members[IndexOf(b.members, key)].1);
      }
    }
    NormalMember(a);
    NormalMember(b);
    hide WellFormed;
    SameFromNormal(a, b);
    NormalFromSame(a, b);
  }

  lemma {:induction false} SameFromNormal(a: Json, b: Json)
    requires a.Obj? && b.Obj? && forall key :: KeyExact(a, b, key)
    requires forall m :: m in Normal(a).members <==> HasNormal(a, m)
    requires forall m :: m in Normal(b).members <==> HasNormal(b, m)
    ensures Normal(a) == Normal(b) ==> Same(a, b)
  {
    if Normal(a) == Normal(b) {
      hide Normal;
      forall key
        ensures Defined(a.members, key) <==> Defined(b.members, key)
        ensures Defined(a.members, key) ==>
          Same(a.members[IndexOf(a.members, key)].1, b.members[IndexOf(b.members, key)].1)
      {
        assert KeyExact(a, b, key);
        if Defined(a.members, key) {
          assert HasNormal(a, (key, Normal(a.members[IndexOf(a.members, key)].1)));
        }
        if Defined(b.members, key) {
          assert HasNormal(b, (key, Normal(b.members[IndexOf(b.members, key)].1)));
        }
      }
    }
  }

  lemma {:induction false} NormalFromSame(a: Json, b: Json)
    requires a.Obj? && b.Obj? && forall key :: KeyExact(a, b, key)
    requires SortedMembers(Normal(a).members) && SortedMembers(Normal(b).members)
    requires forall m :: m in Normal(a).members <==> HasNormal(a, m)
    requires forall m :: m in Normal(b).members <==> HasNormal(b, m)
    ensures Same(a, b) ==> Normal(a) == Normal(b)
  {
    NormalObject(a);
    NormalObject(b);
    if Same(a, b) {
      hide Normal, NormalMembers, SortedMembers;
      forall m
        ensures HasNormal(a, m) <==> HasNormal(b, m)
      {
        assert KeyExact(a, b, m.0);
      }
      SortedEqual(Normal(a).members, Normal(b).members);
    }
  }

  // ---- The law -------------------------------------------------------------

  /**
   * Canonical text exists exactly for supported values, and two of them have the same text exactly when
   * they are equal up to member order, undefined members and the sign of zero.
   */
  lemma {:induction false} CanonicalTextExactlySame(a: Json, b: Json)
    requires WellFormed(a) && WellFormed(b)
    ensures Canonicalize(a).Ok? <==> Supported(a)
    ensures Canonicalize(a).Ok? && Canonicalize(b).Ok? ==> (Canonicalize(a) == Canonicalize(b) <==> Same(a, b))
  {
    hide Canonicalize, Supported, Write, Normal, Same, Writable;
    CanonicalIsNormal(a);
    CanonicalIsNormal(b);
    NormalExactlySame(a, b);
    if Canonicalize(a).Ok? && Canonicalize(a) == Canonicalize(b) {
      UniqueReading(Normal(a), Normal(b), [], []);
    }
  }

  // ---- What the text looks like --------------------------------------------

  /** Texts separated by commas. */
  function Joined(parts: seq<Text>): Text {
    if parts == [] then []
    else if |parts| == 1 then parts[0]
    else parts[0] + [44] + Joined(parts[1..])
  }

  function ItemTexts(items: seq<Json>): seq<Text> {
    seq(|items|, i requires 0 <= i < |items| => Write(items[i]))
  }

  function MemberTexts(members: seq<(Text, Json)>): seq<Text> {
    seq(|members|, i requires 0 <= i < |members| => Quoted(members[i].0) + [58] + Write(members[i].1))
  }

  /**
   * The text of a value that stands in its order: an array is its items' texts between brackets, an
   * object its members as key, colon and value between braces, both joined by commas; the words are
   * those of the grammar (section 3 of RFC 8259), and a string stands between quotation marks.
   */
  lemma {:induction false} WrittenAs(v: Json)
    ensures match v
            case Arr(items) => Write(v) == [91] + Joined(ItemTexts(items)) + [93]
            case Obj(members) => Write(v) == [123] + Joined(MemberTexts(members)) + [125]
            case Null => Write(v) == ['n' as int, 'u' as int, 'l' as int, 'l' as int]
            case Bool(value) =>
              Write(v) ==
                if value then ['t' as int, 'r' as int, 'u' as int, 'e' as int]
                else ['f' as int, 'a' as int, 'l' as int, 's' as int, 'e' as int]
            case Num(Finite(token)) => Write(v) == token
            case Num(Zero(_)) => Write(v) == ['0' as int]
            case Str(text) => Write(v) == [34] + Escaped(text, 0) + [34]
            case _ => true
  {
    hide Joined, WriteItems, WriteMembers, Escaped, ItemTexts, MemberTexts;
    match v
    case Arr(items) =>
      assert ItemTexts(items)[0..] == ItemTexts(items);
      ItemsJoined(v, 0);
    case Obj(members) =>
      assert MemberTexts(members)[0..] == MemberTexts(members);
      MembersJoined(v, 0);
    case _ =>
  }

  lemma {:induction false} ItemsJoined(v: Json, i: nat)
    requires v.Arr? && i <= |v.items|
    ensures WriteItems(v, i) ==
      (if 0 < i < |v.items| then [44] else []) + Joined(ItemTexts(v.items)[i..]) + [93]
    decreases |v.items| - i
  {
    hide Write;
    var texts := ItemTexts(v.items);
    if i < |v.items| {
      ItemsJoined(v, i + 1);
      assert texts[i..] == [texts[i]] + texts[i + 1..];
    }
  }

  lemma {:induction false} MembersJoined(v: Json, i: nat)
    requires v.Obj? && i <= |v.members|
    ensures WriteMembers(v, i) ==
      (if 0 < i < |v.members| then [44] else []) + Joined(MemberTexts(v.members)[i..]) + [125]
    decreases |v.members| - i
  {
    hide Write, Quoted;
    var texts := MemberTexts(v.members);
    if i < |v.members| {
      MembersJoined(v, i + 1);
      assert texts[i..] == [texts[i]] + texts[i + 1..];
    }
  }

  /** The value of a lower-case hexadecimal digit. */
  function DigitValue(u: Unit): int {
    if '0' as int <= u <= '9' as int then u - '0' as int
    else if 'a' as int <= u <= 'f' as int then u - 'a' as int + 10
    else -1
  }

  /**
   * In a string literal a unit stands for itself unless it is a control character, a quotation mark, a
   * backslash or a lone surrogate; those with a two-character escape (section 7 of RFC 8259) get it,
   * and the others the four digits of their value.
   */
  lemma {:induction false} UnitsWrittenAs(s: Text, i: nat)
    requires i < |s|
    ensures Escaped(s, i) == UnitText(s, i) + Escaped(s, i + 1)
    ensures var u, text := s[i], UnitText(s, i);
      var lone := (0xD800 <= u < 0xDC00 && (i + 1 == |s| || !(0xDC00 <= s[i + 1] < 0xE000)))
        || (0xDC00 <= u < 0xE000 && (i == 0 || !(0xD800 <= s[i - 1] < 0xDC00)));
      if u >= 32 && u != '"' as int && u != '\\' as int && !lone then text == [u]
      else if u in {'"' as int, '\\' as int} then text == ['\\' as int, u]
      else if u in {8, 9, 10, 12, 13} then
        text == ['\\' as int,
          (map[8 := 'b', 9 := 't', 10 := 'n', 12 := 'f', 13 := 'r'])[u] as int]
      else
        && |text| == 6 && text[0] == '\\' as int && text[1] == 'u' as int
        && (forall k | 2 <= k < 6 :: 0 <= DigitValue(text[k]) < 16)
        && u == ((DigitValue(text[2]) * 16 + DigitValue(text[3])) * 16 + DigitValue(text[4])) * 16 + DigitValue(text[5])
  {
    DigitsOf(s[i]);
    forall d: int | 0 <= d < 16
      ensures DigitValue(Hex(d)) == d
    {
    }
  }

  lemma {:induction false} DigitsOf(u: Unit)
    ensures 0 <= u / 16 / 16 / 16 < 16
    ensures u == ((u / 16 / 16 / 16 * 16 + u / 16 / 16 % 16) * 16 + u / 16 % 16) * 16 + u % 16
  {
  }
}
