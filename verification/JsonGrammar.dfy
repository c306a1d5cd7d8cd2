/** The JSON grammar (RFC 8259), and that the canonical printer writes texts of it. */
module JsonGrammar {
  import opened Text
  import opened Wrappers
  import opened Sorting
  import opened Json

  // ---------- Strings (section 7 of RFC 8259) ----------

  /** The value of a hexadecimal digit of either case. */
  function DigitValue(c: CodeUnit): (r: Option<nat>)
    ensures r.Some? ==> r.value < 16
  {
    if 48 <= c < 58 then Some(c as int - 48)
    else if 65 <= c < 71 then Some(c as int - 55)
    else if 97 <= c < 103 then Some(c as int - 87)
    else None
  }

  function UnitOfDigits(a: CodeUnit, b: CodeUnit, c: CodeUnit, d: CodeUnit): Option<CodeUnit> {
    var p, q, r, s := DigitValue(a), DigitValue(b), DigitValue(c), DigitValue(d);
    if p.None? || q.None? || r.None? || s.None? then None
    else Some(4096 * p.value + 256 * q.value + 16 * r.value + s.value)
  }

  /** What a letter behind a backslash stands for. */
  function Shorthand(c: CodeUnit): Option<CodeUnit> {
    if c == 34 || c == 92 || c == 47 then Some(c)
    else if c == 98 then Some(8)
    else if c == 102 then Some(12)
    else if c == 110 then Some(10)
    else if c == 114 then Some(13)
    else if c == 116 then Some(9)
    else None
  }

  function Before(c: Option<CodeUnit>, rest: Option<Text>): Option<Text> {
    if c.None? || rest.None? then None else Some([c.value] + rest.value)
  }

  /** What the characters between the quotes of a string say; None when they are no string. */
  function Unescape(t: Text): Option<Text> {
    if t == [] then Some([])
    else if t[0] == 92 then
      if |t| >= 6 && t[1] == 117 then Before(UnitOfDigits(t[2], t[3], t[4], t[5]), Unescape(t[6..]))
      else if |t| >= 2 then Before(Shorthand(t[1]), Unescape(t[2..]))
      else None
    else if t[0] < 32 || t[0] == 34 then None
    else Before(Some(t[0]), Unescape(t[1..]))
  }

  /** The text is a string that says this. */
  predicate SaysString(t: Text, s: Text) {
    |t| >= 2 && t[0] == 34 && t[|t| - 1] == 34 && Unescape(t[1..|t| - 1]) == Some(s)
  }

  lemma HexReadsBack(c: CodeUnit)
    ensures var h := Hex4(c); UnitOfDigits(h[0], h[1], h[2], h[3]) == Some(c)
  {
    DigitsRebuild(c);
  }

  lemma UnitReadsBack(c: CodeUnit, rest: Text)
    ensures Unescape(EscapeUnit(c) + rest) == Before(Some(c), Unescape(rest))
  {
    var t := EscapeUnit(c) + rest;
    hide Unescape;
    if IsPlain(c) {
      assert t[1..] == rest;
      PlainRead(t);
    } else if ShortEscape(c) != 0 {
      assert t[2..] == rest && t[0] == 92 && t[1] == ShortEscape(c) && Shorthand(t[1]) == Some(c);
      ShortRead(t);
    } else {
      HexReadsBack(c);
      var h := Hex4(c);
      hide Hex4, UnitOfDigits;
      assert t[6..] == rest && t[0] == 92 && t[1] == 117;
      assert t[2] == h[0] && t[3] == h[1] && t[4] == h[2] && t[5] == h[3];
      LongRead(t);
    }
  }

  lemma PlainRead(t: Text)
    requires t != [] && t[0] != 92 && t[0] != 34 && t[0] >= 32
    ensures Unescape(t) == Before(Some(t[0]), Unescape(t[1..]))
  {
  }

  lemma ShortRead(t: Text)
    requires |t| >= 2 && t[0] == 92 && t[1] != 117
    ensures Unescape(t) == Before(Shorthand(t[1]), Unescape(t[2..]))
  {
  }

  lemma LongRead(t: Text)
    requires |t| >= 6 && t[0] == 92 && t[1] == 117
    ensures Unescape(t) == Before(UnitOfDigits(t[2], t[3], t[4], t[5]), Unescape(t[6..]))
  {
  }

  /** Reading an escaped text gives the text back. */
  lemma {:induction false} EscapeReadsBack(s: Text)
    ensures Unescape(Escape(s)) == Some(s)
  {
    hide EscapeUnit, Unescape;
    if s == [] {
      NothingRead();
    } else if StartsWithPair(s) {
      var rest := Escape(s[2..]);
      EscapeReadsBack(s[2..]);
      var t := Escape(s);
      assert t == [s[0], s[1]] + rest && t[1..] == [s[1]] + rest && t[1..][1..] == rest;
      PlainRead(t);
      PlainRead(t[1..]);
      assert s == [s[0]] + ([s[1]] + s[2..]);
    } else {
      EscapeReadsBack(s[1..]);
      UnitReadsBack(s[0], Escape(s[1..]));
      assert s == [s[0]] + s[1..];
    }
  }

  lemma NothingRead()
    ensures Unescape([]) == Some([])
  {
  }

  lemma QuoteSays(s: Text)
    ensures SaysString(Quote(s), s)
  {
    EscapeReadsBack(s);
    hide Escape, Unescape;
    var q := Quote(s);
    assert q[1..|q| - 1] == Escape(s);
  }

  // ---------- Values (sections 2 to 6) ----------

  /** The parts with a comma between each two. */
  function Commas(parts: seq<Text>): Text {
    if parts == [] then [] else if |parts| == 1 then parts[0] else parts[0] + [44] + Commas(parts[1..])
  }

  /** The text is a JSON text, without blanks, of the value, its objects' members in the order of their keys. An absent
      value is written null. */
  ghost predicate Says(t: Text, v: Json)
    decreases v
  {
    match v
    case Undefined => t == Ascii("null")
    case Null => t == Ascii("null")
    case Bool(b) => t == if b then Ascii("true") else Ascii("false")
    case Num(literal) => t == literal
    case Str(s) => SaysString(t, s)
    case Arr(items) =>
      exists parts: seq<Text> :: t == [91] + Commas(parts) + [93] && SaysItems(parts, items)
    case Obj(es) =>
      exists parts: seq<Text>, keys: seq<Text> ::
        t == [123] + Commas(parts) + [125] && (forall k :: k in keys <==> k in Keys(es)) && Ascending(keys, Self) &&
        SaysMembers(parts, es, keys)
  }

  ghost predicate SaysItems(parts: seq<Text>, items: seq<Json>)
    decreases items
  {
    |parts| == |items| && forall i :: 0 <= i < |items| ==> Says(parts[i], items[i])
  }

  ghost predicate SaysMembers(parts: seq<Text>, es: seq<Entry>, keys: seq<Text>)
    decreases es, 1
  {
    |parts| == |keys| && forall i :: 0 <= i < |keys| ==> SaysMember(parts[i], es, keys[i])
  }

  /** A member: the key as a string, a colon, and the value. */
  ghost predicate SaysMember(part: Text, es: seq<Entry>, key: Text)
    decreases es, 0
  {
    key in Keys(es) &&
    exists k: Text, w: Text :: part == k + [58] + w && SaysString(k, key) && Says(w, Lookup(es, key))
  }

  function ItemTexts(items: seq<Json>): seq<Text> { seq(|items|, i requires 0 <= i < |items| => StableJson(items[i])) }

  lemma {:induction false} ItemsJoined(items: seq<Json>)
    ensures ItemsText(items) == Commas(ItemTexts(items))
  {
    hide StableJson;
    if |items| > 1 {
      ItemsJoined(items[1..]);
      assert ItemTexts(items)[1..] == ItemTexts(items[1..]);
    }
  }

  function MemberText(es: seq<Entry>, key: Text): Text
    requires key in Keys(es)
  {
    Quote(key) + [COLON] + StableJson(Lookup(es, key))
  }

  function MemberTexts(es: seq<Entry>, keys: seq<Text>): seq<Text>
    requires forall k :: k in keys ==> k in Keys(es)
  {
    seq(|keys|, i requires 0 <= i < |keys| => assert keys[i] in keys; MemberText(es, keys[i]))
  }

  lemma {:induction false} MembersJoined(es: seq<Entry>, keys: seq<Text>)
    requires forall k :: k in keys ==> k in Keys(es)
    ensures FieldsText(es, keys) == Commas(MemberTexts(es, keys))
    decreases |keys|
  {
    hide StableJson, Quote, Lookup;
    if |keys| > 1 {
      MembersJoined(es, keys[1..]);
      assert MemberTexts(es, keys)[1..] == MemberTexts(es, keys[1..]);
    }
  }

  /** The canonical printer writes a JSON text of the value. */
  lemma {:induction false} PrintsJson(v: Json)
    requires WellFormed(v)
    ensures Says(StableJson(v), v)
    decreases v
  {
    match v
    case Str(s) => QuoteSays(s);
    case Arr(items) =>
      ItemsJoined(items);
      hide StableJson, Commas, ItemsText;
      forall i | 0 <= i < |items| ensures Says(StableJson(items[i]), items[i]) { PrintsJson(items[i]); }
      PrintedArray(items);
      assert SaysItems(ItemTexts(items), items);
    case Obj(es) =>
      PrintsMembers(es);
      PrintedObject(es);
      SortAscending(Keys(es), Self);
      hide StableJson, Commas;
      assert SaysMembers(MemberTexts(es, SortedKeys(es)), es, SortedKeys(es));
    case _ =>
  }

  lemma PrintedArray(items: seq<Json>)
    ensures StableJson(Arr(items)) == [91] + Commas(ItemTexts(items)) + [93]
  {
    ItemsJoined(items);
  }

  lemma PrintedObject(es: seq<Entry>)
    ensures StableJson(Obj(es)) == [123] + Commas(MemberTexts(es, SortedKeys(es))) + [125]
  {
    MembersJoined(es, SortedKeys(es));
  }

  lemma {:induction false} PrintsMembers(es: seq<Entry>)
    requires forall i :: 0 <= i < |es| ==> WellFormed(es[i].value)
    ensures SaysMembers(MemberTexts(es, SortedKeys(es)), es, SortedKeys(es))
    decreases es
  {
    hide StableJson, WellFormed, Quote, Lookup;
    var keys := SortedKeys(es);
    forall i | 0 <= i < |keys| ensures SaysMember(MemberTexts(es, keys)[i], es, keys[i]) {
      assert keys[i] in keys;
      QuoteSays(keys[i]);
      var w := Lookup(es, keys[i]);
      PrintsJson(w);
      assert MemberTexts(es, keys)[i] == Quote(keys[i]) + [58] + StableJson(w);
    }
  }
}
