/** The printer behind every receipt and subject digest: JSON text with sorted object keys. */
module Json {
  import opened Text
  import opened Sorting
  import opened Wrappers

  const QUOTE: CodeUnit := 34
  const COMMA: CodeUnit := 44
  const COLON: CodeUnit := 58
  const OPEN_ARRAY: CodeUnit := 91
  const CLOSE_ARRAY: CodeUnit := 93
  const OPEN_OBJECT: CodeUnit := 123
  const CLOSE_OBJECT: CodeUnit := 125

  /** A value as the program holds it. A number is the literal that JavaScript prints for it. */
  datatype Json = Undefined | Null | Bool(value: bool) | Num(literal: Text) | Str(text: Text)
                | Arr(items: seq<Json>) | Obj(entries: seq<Entry>)

  datatype Entry = Entry(key: Text, value: Json)

  // ---------- Strings ----------

  function HexDigit(d: int): CodeUnit
    requires 0 <= d < 16
  {
    if d < 10 then 48 + d else 87 + d
  }

  function Hex4(c: CodeUnit): (r: Text)
    ensures |r| == 4
  {
    [HexDigit(c / 4096), HexDigit(c / 256 % 16), HexDigit(c / 16 % 16), HexDigit(c % 16)]
  }

  /** The letter after the backslash, for the units that have a short escape; 0 for the others. */
  function ShortEscape(c: CodeUnit): CodeUnit {
    if c == QUOTE || c == BACKSLASH then c
    else if c == 8 then 98 else if c == 9 then 116 else if c == 10 then 110
    else if c == 12 then 102 else if c == 13 then 114
    else 0
  }

  predicate IsPlain(c: CodeUnit) { c >= 32 && c != QUOTE && c != BACKSLASH && !IsHigh(c) && !IsLow(c) }

  /** One unit on its own; a surrogate here is a lone one. */
  function EscapeUnit(c: CodeUnit): (r: Text) {
    if IsPlain(c) then [c]
    else if ShortEscape(c) != 0 then [BACKSLASH, ShortEscape(c)]
    else [BACKSLASH, 117] + Hex4(c)
  }

  predicate StartsWithPair(s: Text) { |s| > 1 && IsHigh(s[0]) && IsLow(s[1]) }

  function Escape(s: Text): Text {
    if s == [] then []
    else if StartsWithPair(s) then s[..2] + Escape(s[2..])
    else EscapeUnit(s[0]) + Escape(s[1..])
  }

  function Quote(s: Text): Text { [QUOTE] + Escape(s) + [QUOTE] }

  lemma DigitInjective(d: int, e: int)
    requires 0 <= d < 16 && 0 <= e < 16 && HexDigit(d) == HexDigit(e)
    ensures d == e
  {
  }

  lemma DigitsRebuild(c: CodeUnit)
    ensures 0 <= c / 4096 < 16
    ensures c == 16 * (16 * (16 * (c / 4096) + c / 256 % 16) + c / 16 % 16) + c % 16
  {
    assert c / 16 / 16 == c / 256 && c / 256 / 16 == c / 4096;
  }

  lemma HexInjective(c: CodeUnit, d: CodeUnit)
    requires Hex4(c) == Hex4(d)
    ensures c == d
  {
    hide HexDigit;
    assert Hex4(c)[0] == Hex4(d)[0] && Hex4(c)[1] == Hex4(d)[1] && Hex4(c)[2] == Hex4(d)[2] && Hex4(c)[3] == Hex4(d)[3];
    DigitInjective(c / 4096, d / 4096);
    DigitInjective(c / 256 % 16, d / 256 % 16);
    DigitInjective(c / 16 % 16, d / 16 % 16);
    DigitInjective(c % 16, d % 16);
    DigitsRebuild(c);
    DigitsRebuild(d);
  }

  /** Two escaped units that begin the same text are the same unit, and leave the same rest. */
  lemma UnitUnambiguous(c: CodeUnit, d: CodeUnit, s: Text, t: Text)
    requires EscapeUnit(c) + s == EscapeUnit(d) + t
    ensures c == d && s == t
  {
    var a, b := EscapeUnit(c), EscapeUnit(d);
    assert (a + s)[0] == a[0] && (b + t)[0] == b[0];
    if IsPlain(c) {
      assert c == d;
    } else {
      assert (a + s)[1] == a[1] && (b + t)[1] == b[1];
      if ShortEscape(c) != 0 {
        assert ShortEscape(d) == ShortEscape(c);
      } else {
        assert ShortEscape(d) == 0;
        assert (a + s)[2..6] == Hex4(c) && (b + t)[2..6] == Hex4(d);
        HexInjective(c, d);
      }
    }
    assert (a + s)[|a|..] == s && (b + t)[|b|..] == t;
  }

  lemma EscapeHead(s: Text)
    requires s != []
    ensures Escape(s) != [] && Escape(s)[0] != QUOTE
    ensures IsHigh(Escape(s)[0]) <==> StartsWithPair(s)
  {
  }

  /** The escaped text with its closing quote and what follows. */
  function Tail(a: Text, s: Text): Text { Escape(a) + [QUOTE] + s }

  lemma TailHead(a: Text, s: Text)
    ensures Tail(a, s) != []
    ensures a == [] <==> Tail(a, s)[0] == QUOTE
    ensures StartsWithPair(a) <==> IsHigh(Tail(a, s)[0])
  {
    hide EscapeUnit;
    if a != [] { EscapeHead(a); }
  }

  lemma TailPair(a: Text, s: Text)
    requires StartsWithPair(a)
    ensures Tail(a, s)[..2] == a[..2] && Tail(a, s)[2..] == Tail(a[2..], s)
    ensures a == a[..2] + a[2..]
  {
    assert Tail(a, s) == a[..2] + Tail(a[2..], s);
  }

  lemma TailUnit(a: Text, s: Text)
    requires a != [] && !StartsWithPair(a)
    ensures Tail(a, s) == EscapeUnit(a[0]) + Tail(a[1..], s)
    ensures a == [a[0]] + a[1..]
  {
    hide EscapeUnit;
    assert EscapeUnit(a[0]) + Escape(a[1..]) + [QUOTE] + s == EscapeUnit(a[0]) + (Escape(a[1..]) + [QUOTE] + s);
  }

  /** A quoted text ends where its closing quote stands: nothing else can be read from it. */
  lemma {:induction false} EscapeUnambiguous(a: Text, b: Text, s: Text, t: Text)
    requires Tail(a, s) == Tail(b, t)
    ensures a == b && s == t
    decreases |a|
  {
    hide Tail, Escape, EscapeUnit;
    TailHead(a, s);
    TailHead(b, t);
    if a == [] {
      EmptyTail(s);
      EmptyTail(t);
    } else if StartsWithPair(a) {
      TailPair(a, s);
      TailPair(b, t);
      EscapeUnambiguous(a[2..], b[2..], s, t);
    } else {
      TailUnit(a, s);
      TailUnit(b, t);
      UnitUnambiguous(a[0], b[0], Tail(a[1..], s), Tail(b[1..], t));
      EscapeUnambiguous(a[1..], b[1..], s, t);
    }
  }

  lemma EmptyTail(s: Text)
    ensures Tail([], s)[0] == QUOTE && Tail([], s)[1..] == s
  {
  }

  lemma QuoteUnambiguous(a: Text, b: Text, s: Text, t: Text)
    requires Quote(a) + s == Quote(b) + t
    ensures a == b && s == t
  {
    hide Escape;
    assert (Quote(a) + s)[1..] == Tail(a, s);
    assert (Quote(b) + t)[1..] == Tail(b, t);
    EscapeUnambiguous(a, b, s, t);
  }

  // ---------- The printer ----------

  function Self(k: Text): Text { k }

  function Keys(es: seq<Entry>): (r: seq<Text>)
    ensures |r| == |es| && forall i :: 0 <= i < |es| ==> r[i] == es[i].key
  {
    if es == [] then [] else [es[0].key] + Keys(es[1..])
  }

  /** The value under a key. */
  function Lookup(es: seq<Entry>, key: Text): (r: Json)
    requires key in Keys(es)
    ensures exists i :: 0 <= i < |es| && es[i] == Entry(key, r)
  {
    if es[0].key == key then es[0].value else Lookup(es[1..], key)
  }

  function SortedKeys(es: seq<Entry>): (r: seq<Text>)
    ensures forall k :: k in r <==> k in Keys(es)
  {
    SortMembers(Keys(es), Self);
    SortBy(Keys(es), Self)
  }

  function StableJson(v: Json): Text
    decreases v
  {
    match v
    case Undefined => Ascii("null")
    case Null => Ascii("null")
    case Bool(b) => if b then Ascii("true") else Ascii("false")
    case Num(literal) => literal
    case Str(text) => Quote(text)
    case Arr(items) => [OPEN_ARRAY] + ItemsText(items) + [CLOSE_ARRAY]
    case Obj(es) => [OPEN_OBJECT] + FieldsText(es, SortedKeys(es)) + [CLOSE_OBJECT]
  }

  /** The items joined by commas. */
  function ItemsText(items: seq<Json>): Text
    decreases items
  {
    if items == [] then []
    else StableJson(items[0]) + (if |items| == 1 then [] else [COMMA] + ItemsText(items[1..]))
  }

  /** The members under the given keys, joined by commas. */
  function FieldsText(es: seq<Entry>, keys: seq<Text>): Text
    requires forall k :: k in keys ==> k in Keys(es)
    decreases es, |keys|
  {
    if keys == [] then []
    else
      Quote(keys[0]) + [COLON] + StableJson(Lookup(es, keys[0])) +
      (if |keys| == 1 then [] else [COMMA] + FieldsText(es, keys[1..]))
  }

  // ---------- What an object holds under a key ----------

  /** The object holds the value under the key. */
  ghost predicate Has(es: seq<Entry>, key: Text, value: Json) { key in Keys(es) && Lookup(es, key) == value }

  /** The object holds the text under the key, or has no such key. */
  ghost predicate HasIf(es: seq<Entry>, key: Text, value: Option<Text>) {
    if value.Some? then Has(es, key, Str(value.value)) else key !in Keys(es)
  }

  lemma {:induction false} LookupAt(es: seq<Entry>, i: nat)
    requires i < |es| && UniqueKeys(Keys(es), Self)
    ensures es[i].key in Keys(es) && Lookup(es, es[i].key) == es[i].value
  {
    hide Lookup;
    assert Keys(es)[i] == es[i].key;
    var v := Lookup(es, es[i].key);
    var j :| 0 <= j < |es| && es[j] == Entry(es[i].key, v);
    assert Keys(es)[j] == Keys(es)[i];
  }

  lemma HasAt(es: seq<Entry>, i: nat, key: Text, value: Json)
    requires i < |es| && UniqueKeys(Keys(es), Self) && es[i] == Entry(key, value)
    ensures Has(es, key, value)
  {
    hide Keys, Lookup, UniqueKeys;
    LookupAt(es, i);
  }

  lemma HasNot(es: seq<Entry>, key: Text)
    requires forall i :: 0 <= i < |es| ==> es[i].key != key
    ensures HasIf(es, key, None)
  {
  }

  // ---------- What equal texts mean ----------

  /** Equal up to the order of object keys; an absent value prints as null. */
  ghost predicate SameJson(v: Json, w: Json)
    decreases v
  {
    match v
    case Undefined => w.Undefined? || w.Null?
    case Null => w.Undefined? || w.Null?
    case Bool(b) => w == Bool(b)
    case Num(literal) => w == Num(literal)
    case Str(text) => w == Str(text)
    case Arr(items) =>
      w.Arr? && |items| == |w.items| && forall i :: 0 <= i < |items| ==> SameJson(items[i], w.items[i])
    case Obj(es) => w.Obj? && SameKeys(es, w.entries) && SameUnder(es, w.entries, Keys(es))
  }

  ghost predicate SameKeys(es: seq<Entry>, fs: seq<Entry>) { forall k :: k in Keys(es) <==> k in Keys(fs) }

  ghost predicate SameUnder(es: seq<Entry>, fs: seq<Entry>, keys: seq<Text>)
    decreases es
  {
    forall k :: k in keys && k in Keys(es) && k in Keys(fs) ==> SameJson(Lookup(es, k), Lookup(fs, k))
  }

  predicate IsNumberUnit(c: CodeUnit) { 48 <= c <= 57 || c == 43 || c == 45 || c == 46 || c == 69 || c == 101 }

  /** The literals JavaScript prints for finite numbers begin so and consist of these units. */
  predicate IsLiteral(t: Text) {
    t != [] && (48 <= t[0] <= 57 || t[0] == 45) && forall i :: 0 <= i < |t| ==> IsNumberUnit(t[i])
  }

  /** A value a program can hold: numbers print as literals, and no object has a key twice. */
  ghost predicate WellFormed(v: Json)
    decreases v
  {
    match v
    case Num(literal) => IsLiteral(literal)
    case Arr(items) => forall i :: 0 <= i < |items| ==> WellFormed(items[i])
    case Obj(es) => UniqueKeys(Keys(es), Self) && forall i :: 0 <= i < |es| ==> WellFormed(es[i].value)
    case _ => true
  }

  /** What may follow a value inside a larger text. */
  predicate Delimited(s: Text) { s == [] || s[0] == COMMA || s[0] == CLOSE_ARRAY || s[0] == CLOSE_OBJECT }

  function Kind(v: Json): nat {
    match v
    case Undefined => 0
    case Null => 0
    case Bool(b) => if b then 1 else 2
    case Num(_) => 3
    case Str(_) => 4
    case Arr(_) => 5
    case Obj(_) => 6
  }

  function KindOf(c: CodeUnit): nat {
    if c == 110 then 0 else if c == 116 then 1 else if c == 102 then 2 else if c == QUOTE then 4
    else if c == OPEN_ARRAY then 5 else if c == OPEN_OBJECT then 6 else 3
  }

  /** The first unit tells what kind of value follows, and is never a closing mark. */
  lemma FirstUnit(v: Json)
    requires WellFormed(v)
    ensures StableJson(v) != [] && KindOf(StableJson(v)[0]) == Kind(v)
    ensures !Delimited(StableJson(v))
  {
    hide ItemsText, FieldsText, Escape;
  }

  lemma LiteralEnds(a: Text, b: Text, s: Text, t: Text)
    requires IsLiteral(b) && Delimited(s) && a + s == b + t
    ensures |b| <= |a|
  {
    assert s != [] ==> !IsNumberUnit((a + s)[|a|]);
    assert forall i :: 0 <= i < |b| ==> IsNumberUnit((b + t)[i]);
    assert s == [] ==> |a| == |a + s|;
  }

  lemma NumbersUnambiguous(a: Text, b: Text, s: Text, t: Text)
    requires IsLiteral(a) && IsLiteral(b) && Delimited(s) && Delimited(t) && a + s == b + t
    ensures a == b && s == t
  {
    LiteralEnds(a, b, s, t);
    LiteralEnds(b, a, t, s);
    assert (a + s)[..|a|] == a && (b + t)[..|b|] == b && (a + s)[|a|..] == s && (b + t)[|b|..] == t;
  }

  /** No value's text is a prefix of another's in any context: from equal texts the values can be read back. */
  lemma {:induction false} Unambiguous(v: Json, w: Json, s: Text, t: Text)
    requires WellFormed(v) && WellFormed(w) && Delimited(s) && Delimited(t)
    requires StableJson(v) + s == StableJson(w) + t
    ensures SameJson(v, w) && s == t
    decreases v
  {
    hide Delimited, Quote, ItemsText, FieldsText, SortedKeys, SameKeys, SameUnder, IsLiteral;
    var x, y := StableJson(v), StableJson(w);
    FirstUnit(v);
    FirstUnit(w);
    assert (x + s)[0] == x[0] && (y + t)[0] == y[0];
    if v.Str? {
      QuoteUnambiguous(v.text, w.text, s, t);
    } else if v.Num? {
      NumbersUnambiguous(v.literal, w.literal, s, t);
    } else if v.Arr? {
      assert (x + s)[1..] == ItemsText(v.items) + [CLOSE_ARRAY] + s;
      assert (y + t)[1..] == ItemsText(w.items) + [CLOSE_ARRAY] + t;
      ItemsUnambiguous(v.items, w.items, s, t);
    } else if v.Obj? {
      assert (x + s)[1..] == FieldsText(v.entries, SortedKeys(v.entries)) + [CLOSE_OBJECT] + s;
      assert (y + t)[1..] == FieldsText(w.entries, SortedKeys(w.entries)) + [CLOSE_OBJECT] + t;
      FieldsUnambiguous(v.entries, SortedKeys(v.entries), w.entries, SortedKeys(w.entries), s, t);
      SameObjects(v.entries, w.entries);
    } else {
      assert x == y;
      assert (x + s)[|x|..] == s && (y + t)[|y|..] == t;
    }
  }

  lemma SameObjects(es: seq<Entry>, fs: seq<Entry>)
    requires SortedKeys(es) == SortedKeys(fs) && SameUnder(es, fs, SortedKeys(es))
    ensures SameKeys(es, fs) && SameUnder(es, fs, Keys(es))
  {
    hide SameJson;
  }

  function ItemsRest(items: seq<Json>, s: Text): Text
    requires items != []
  {
    if |items| == 1 then [CLOSE_ARRAY] + s else [COMMA] + (ItemsText(items[1..]) + [CLOSE_ARRAY] + s)
  }

  lemma ItemsStep(items: seq<Json>, s: Text)
    requires items != []
    ensures ItemsText(items) + [CLOSE_ARRAY] + s == StableJson(items[0]) + ItemsRest(items, s)
    ensures Delimited(ItemsRest(items, s))
  {
    hide StableJson;
  }

  lemma {:induction false} ItemsUnambiguous(a: seq<Json>, b: seq<Json>, s: Text, t: Text)
    requires forall i :: 0 <= i < |a| ==> WellFormed(a[i])
    requires forall i :: 0 <= i < |b| ==> WellFormed(b[i])
    requires ItemsText(a) + [CLOSE_ARRAY] + s == ItemsText(b) + [CLOSE_ARRAY] + t
    ensures s == t && |a| == |b| && forall i :: 0 <= i < |a| ==> SameJson(a[i], b[i])
    decreases a
  {
    hide StableJson, SameJson, WellFormed, Delimited;
    ItemsHead(a, s);
    ItemsHead(b, t);
    if a == [] {
      assert (ItemsText(a) + [CLOSE_ARRAY] + s)[1..] == s && (ItemsText(b) + [CLOSE_ARRAY] + t)[1..] == t;
    } else {
      ItemsStep(a, s);
      ItemsStep(b, t);
      Unambiguous(a[0], b[0], ItemsRest(a, s), ItemsRest(b, t));
      var x, y := ItemsRest(a, s), ItemsRest(b, t);
      assert x[1..] == y[1..];
      assert |a| == 1 <==> x[0] == CLOSE_ARRAY;
      assert |b| == 1 <==> y[0] == CLOSE_ARRAY;
      if |a| == 1 {
        assert x[1..] == s && y[1..] == t;
      } else {
        assert x[1..] == ItemsText(a[1..]) + [CLOSE_ARRAY] + s && y[1..] == ItemsText(b[1..]) + [CLOSE_ARRAY] + t;
        ItemsUnambiguous(a[1..], b[1..], s, t);
      }
    }
  }

  lemma ItemsHead(items: seq<Json>, s: Text)
    requires forall i :: 0 <= i < |items| ==> WellFormed(items[i])
    ensures items == [] <==> (ItemsText(items) + [CLOSE_ARRAY] + s)[0] == CLOSE_ARRAY
    ensures items == [] ==> ItemsText(items) == []
  {
    hide StableJson, WellFormed;
    if items != [] {
      FirstUnit(items[0]);
      ItemsStep(items, s);
    }
  }

  function FieldsRest(es: seq<Entry>, keys: seq<Text>, s: Text): Text
    requires keys != [] && forall k :: k in keys ==> k in Keys(es)
  {
    if |keys| == 1 then [CLOSE_OBJECT] + s else [COMMA] + (FieldsText(es, keys[1..]) + [CLOSE_OBJECT] + s)
  }

  lemma FieldsStep(es: seq<Entry>, keys: seq<Text>, s: Text)
    requires keys != [] && forall k :: k in keys ==> k in Keys(es)
    ensures FieldsText(es, keys) + [CLOSE_OBJECT] + s ==
            Quote(keys[0]) + ([COLON] + (StableJson(Lookup(es, keys[0])) + FieldsRest(es, keys, s)))
    ensures Delimited(FieldsRest(es, keys, s))
  {
    hide StableJson, Quote, Lookup, FieldsText, FieldsMore, FieldsRest, Delimited;
    var q, v := Quote(keys[0]), StableJson(Lookup(es, keys[0]));
    FieldsUnfold(es, keys);
    Reassociate(q, v, FieldsMore(es, keys), s);
    MoreIsRest(es, keys, s);
  }

  function FieldsMore(es: seq<Entry>, keys: seq<Text>): Text
    requires keys != [] && forall k :: k in keys ==> k in Keys(es)
  {
    if |keys| == 1 then [] else [COMMA] + FieldsText(es, keys[1..])
  }

  lemma FieldsUnfold(es: seq<Entry>, keys: seq<Text>)
    requires keys != [] && forall k :: k in keys ==> k in Keys(es)
    ensures FieldsText(es, keys) == Quote(keys[0]) + [COLON] + StableJson(Lookup(es, keys[0])) + FieldsMore(es, keys)
  {
    hide StableJson, Quote, Lookup;
  }

  lemma MoreIsRest(es: seq<Entry>, keys: seq<Text>, s: Text)
    requires keys != [] && forall k :: k in keys ==> k in Keys(es)
    ensures FieldsMore(es, keys) + [CLOSE_OBJECT] + s == FieldsRest(es, keys, s)
    ensures Delimited(FieldsRest(es, keys, s))
  {
    hide FieldsText;
  }

  lemma Reassociate(q: Text, v: Text, more: Text, s: Text)
    ensures q + [COLON] + v + more + [CLOSE_OBJECT] + s == q + ([COLON] + (v + (more + [CLOSE_OBJECT] + s)))
  {
  }

  lemma FieldsHead(es: seq<Entry>, keys: seq<Text>, s: Text)
    requires forall k :: k in keys ==> k in Keys(es)
    ensures keys == [] <==> (FieldsText(es, keys) + [CLOSE_OBJECT] + s)[0] == CLOSE_OBJECT
    ensures keys == [] ==> FieldsText(es, keys) == []
  {
    hide StableJson, Escape;
    if keys != [] { FieldsStep(es, keys, s); }
  }

  lemma {:induction false} FieldsUnambiguous(
      es: seq<Entry>, ks: seq<Text>, fs: seq<Entry>, ls: seq<Text>, s: Text, t: Text)
    requires (forall k :: k in ks ==> k in Keys(es)) && (forall l :: l in ls ==> l in Keys(fs))
    requires forall i :: 0 <= i < |es| ==> WellFormed(es[i].value)
    requires forall i :: 0 <= i < |fs| ==> WellFormed(fs[i].value)
    requires FieldsText(es, ks) + [CLOSE_OBJECT] + s == FieldsText(fs, ls) + [CLOSE_OBJECT] + t
    ensures s == t && ks == ls && SameUnder(es, fs, ks)
    decreases es, |ks|
  {
    hide StableJson, SameJson, WellFormed, Delimited, Quote, FieldsText, FieldsRest, SameUnder;
    FieldsHead(es, ks, s);
    FieldsHead(fs, ls, t);
    if ks == [] {
      assert (FieldsText(es, ks) + [CLOSE_OBJECT] + s)[1..] == s && (FieldsText(fs, ls) + [CLOSE_OBJECT] + t)[1..] == t;
      NoneUnder(es, fs);
    } else {
      FieldsStep(es, ks, s);
      FieldsStep(fs, ls, t);
      var a, b := FieldsRest(es, ks, s), FieldsRest(fs, ls, t);
      var v, w := Lookup(es, ks[0]), Lookup(fs, ls[0]);
      QuoteUnambiguous(ks[0], ls[0], [COLON] + (StableJson(v) + a), [COLON] + (StableJson(w) + b));
      assert ([COLON] + (StableJson(v) + a))[1..] == StableJson(v) + a;
      assert ([COLON] + (StableJson(w) + b))[1..] == StableJson(w) + b;
      Unambiguous(v, w, a, b);
      RestSplits(es, ks, fs, ls, s, t);
      assert ks == [ks[0]] + ks[1..] && ls == [ls[0]] + ls[1..];
      if |ks| > 1 {
        FieldsUnambiguous(es, ks[1..], fs, ls[1..], s, t);
      } else {
        NoneUnder(es, fs);
      }
      OneMoreUnder(es, fs, ks);
    }
  }

  lemma NoneUnder(es: seq<Entry>, fs: seq<Entry>)
    ensures SameUnder(es, fs, [])
  {
  }

  lemma OneMoreUnder(es: seq<Entry>, fs: seq<Entry>, ks: seq<Text>)
    requires ks != [] && ks[0] in Keys(es) && ks[0] in Keys(fs)
    requires SameJson(Lookup(es, ks[0]), Lookup(fs, ks[0])) && SameUnder(es, fs, ks[1..])
    ensures SameUnder(es, fs, ks)
  {
    hide SameJson;
    assert ks == [ks[0]] + ks[1..];
  }

  lemma RestSplits(es: seq<Entry>, ks: seq<Text>, fs: seq<Entry>, ls: seq<Text>, s: Text, t: Text)
    requires ks != [] && ls != []
    requires (forall k :: k in ks ==> k in Keys(es)) && (forall l :: l in ls ==> l in Keys(fs))
    requires FieldsRest(es, ks, s) == FieldsRest(fs, ls, t)
    ensures |ks| == 1 <==> |ls| == 1
    ensures |ks| == 1 ==> s == t
    ensures |ks| > 1 ==> FieldsText(es, ks[1..]) + [CLOSE_OBJECT] + s == FieldsText(fs, ls[1..]) + [CLOSE_OBJECT] + t
  {
    hide FieldsText;
    var a, b := FieldsRest(es, ks, s), FieldsRest(fs, ls, t);
    assert |ks| == 1 <==> a[0] == CLOSE_OBJECT;
    assert |ls| == 1 <==> b[0] == CLOSE_OBJECT;
    assert a[1..] == if |ks| == 1 then s else FieldsText(es, ks[1..]) + [CLOSE_OBJECT] + s;
    assert b[1..] == if |ls| == 1 then t else FieldsText(fs, ls[1..]) + [CLOSE_OBJECT] + t;
  }

  /** Texts without repetition and with the same members are rearrangements of one another. */
  lemma UniqueSameMembers(a: seq<Text>, b: seq<Text>)
    requires UniqueKeys(a, Self) && UniqueKeys(b, Self) && forall k :: k in a <==> k in b
    ensures multiset(a) == multiset(b)
  {
    forall k ensures multiset(a)[k] == multiset(b)[k] {
      assert k in multiset(a) <==> k in a;
      assert k in multiset(b) <==> k in b;
      if k in a {
        var i :| 0 <= i < |a| && a[i] == k;
        var j :| 0 <= j < |b| && b[j] == k;
        Once(a, i, Self);
        Once(b, j, Self);
      }
    }
  }

  lemma SameSortedKeys(es: seq<Entry>, fs: seq<Entry>)
    requires UniqueKeys(Keys(es), Self) && UniqueKeys(Keys(fs), Self) && SameKeys(es, fs)
    ensures SortedKeys(es) == SortedKeys(fs)
  {
    UniqueSameMembers(Keys(es), Keys(fs));
    SortCanonical(Keys(es), Keys(fs), Self);
  }

  lemma {:induction false} SameText(v: Json, w: Json)
    requires WellFormed(v) && WellFormed(w) && SameJson(v, w)
    ensures StableJson(v) == StableJson(w)
    decreases v
  {
    hide SortedKeys, SameUnder, SameKeys, ItemsText, FieldsText;
    if v.Arr? {
      SameItems(v.items, w.items);
    } else if v.Obj? {
      SameSortedKeys(v.entries, w.entries);
      UnderSorted(v.entries, w.entries);
      SameFields(v.entries, w.entries, SortedKeys(v.entries));
    }
  }

  lemma UnderSorted(es: seq<Entry>, fs: seq<Entry>)
    requires SameUnder(es, fs, Keys(es)) && SortedKeys(es) == SortedKeys(fs)
    ensures SameUnder(es, fs, SortedKeys(es))
  {
    hide SameJson;
  }

  lemma {:induction false} SameItems(a: seq<Json>, b: seq<Json>)
    requires |a| == |b| && forall i :: 0 <= i < |a| ==> WellFormed(a[i]) && WellFormed(b[i]) && SameJson(a[i], b[i])
    ensures ItemsText(a) == ItemsText(b)
    decreases a
  {
    hide StableJson, SameJson, WellFormed;
    if a != [] {
      SameText(a[0], b[0]);
      SameItems(a[1..], b[1..]);
    }
  }

  lemma {:induction false} SameFields(es: seq<Entry>, fs: seq<Entry>, keys: seq<Text>)
    requires (forall k :: k in keys ==> k in Keys(es)) && (forall k :: k in keys ==> k in Keys(fs))
    requires forall i :: 0 <= i < |es| ==> WellFormed(es[i].value)
    requires forall i :: 0 <= i < |fs| ==> WellFormed(fs[i].value)
    requires SameUnder(es, fs, keys)
    ensures FieldsText(es, keys) == FieldsText(fs, keys)
    decreases es, |keys|
  {
    hide StableJson, SameJson, WellFormed, Quote;
    if keys != [] {
      assert keys[0] in keys;
      SameText(Lookup(es, keys[0]), Lookup(fs, keys[0]));
      SameFields(es, fs, keys[1..]);
    }
  }

  /** The printer's law: the texts are equal exactly when the values are, up to the order of object keys. */
  lemma StableJsonDecides(v: Json, w: Json)
    requires WellFormed(v) && WellFormed(w)
    ensures StableJson(v) == StableJson(w) <==> SameJson(v, w)
  {
    hide StableJson, SameJson, WellFormed;
    if StableJson(v) == StableJson(w) { Unambiguous(v, w, [], []); }
    if SameJson(v, w) { SameText(v, w); }
  }

  // ---------- The text has a faithful UTF-8 encoding ----------

  lemma PlainPaired(s: Text)
    requires forall i :: 0 <= i < |s| ==> s[i] < 0xD800
    ensures Paired(s)
  {
  }

  lemma {:induction false} EscapePaired(s: Text)
    ensures Paired(Escape(s))
  {
    hide HexDigit;
    if s != [] {
      if StartsWithPair(s) {
        EscapePaired(s[2..]);
        assert Paired(s[..2]) by { assert s[..2][2..] == []; }
        PairedConcat(s[..2], Escape(s[2..]));
      } else {
        EscapePaired(s[1..]);
        UnitPaired(s[0]);
        PairedConcat(EscapeUnit(s[0]), Escape(s[1..]));
      }
    }
  }

  lemma UnitPaired(c: CodeUnit)
    ensures Paired(EscapeUnit(c))
  {
    hide Paired;
    if IsPlain(c) { OnePaired(c); } else { PlainPaired(EscapeUnit(c)); }
  }

  lemma OnePaired(c: CodeUnit)
    requires !IsHigh(c) && !IsLow(c)
    ensures Paired([c])
  {
  }

  lemma QuotePaired(s: Text)
    ensures Paired(Quote(s))
  {
    hide Paired, Escape;
    EscapePaired(s);
    OnePaired(QUOTE);
    PairedConcat([QUOTE], Escape(s));
    PairedConcat([QUOTE] + Escape(s), [QUOTE]);
  }

  /** Lone surrogates are escaped, so hashing the UTF-8 bytes of the text is hashing the text. */
  lemma {:induction false} StableJsonPaired(v: Json)
    requires WellFormed(v)
    ensures Paired(StableJson(v))
    decreases v
  {
    hide Paired, Quote, ItemsText, FieldsText, SortedKeys;
    if v.Str? {
      QuotePaired(v.text);
    } else if v.Arr? {
      ItemsPaired(v.items);
      Wrapped(OPEN_ARRAY, ItemsText(v.items), CLOSE_ARRAY);
    } else if v.Obj? {
      FieldsPaired(v.entries, SortedKeys(v.entries));
      Wrapped(OPEN_OBJECT, FieldsText(v.entries, SortedKeys(v.entries)), CLOSE_OBJECT);
    } else {
      PlainPaired(StableJson(v));
    }
  }

  lemma Wrapped(a: CodeUnit, s: Text, b: CodeUnit)
    requires Paired(s) && a < 0xD800 && b < 0xD800
    ensures Paired([a] + s + [b])
  {
    hide Paired;
    OnePaired(a);
    OnePaired(b);
    PairedConcat([a], s);
    PairedConcat([a] + s, [b]);
  }

  lemma {:induction false} ItemsPaired(items: seq<Json>)
    requires forall i :: 0 <= i < |items| ==> WellFormed(items[i])
    ensures Paired(ItemsText(items))
    decreases items
  {
    hide Paired, StableJson, WellFormed;
    if items == [] {
      PlainPaired([]);
    } else {
      StableJsonPaired(items[0]);
      ItemsPaired(items[1..]);
      OnePaired(COMMA);
      PairedConcat([COMMA], ItemsText(items[1..]));
      PlainPaired([]);
      PairedConcat(StableJson(items[0]), if |items| == 1 then [] else [COMMA] + ItemsText(items[1..]));
    }
  }

  lemma {:induction false} FieldsPaired(es: seq<Entry>, keys: seq<Text>)
    requires forall k :: k in keys ==> k in Keys(es)
    requires forall i :: 0 <= i < |es| ==> WellFormed(es[i].value)
    ensures Paired(FieldsText(es, keys))
    decreases es, |keys|
  {
    hide Paired, StableJson, WellFormed, Quote;
    if keys == [] {
      PlainPaired([]);
    } else {
      var v := Lookup(es, keys[0]);
      var rest := if |keys| == 1 then [] else [COMMA] + FieldsText(es, keys[1..]);
      QuotePaired(keys[0]);
      OnePaired(COLON);
      PairedConcat(Quote(keys[0]), [COLON]);
      StableJsonPaired(v);
      PairedConcat(Quote(keys[0]) + [COLON], StableJson(v));
      FieldsPaired(es, keys[1..]);
      OnePaired(COMMA);
      PairedConcat([COMMA], FieldsText(es, keys[1..]));
      PlainPaired([]);
      PairedConcat(Quote(keys[0]) + [COLON] + StableJson(v), rest);
    }
  }
}
