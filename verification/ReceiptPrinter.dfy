/** The receipts' own copy of the canonical printer, and where it differs from the shared one. */
module ReceiptPrinter {
  import opened Text
  import opened Json
  import Sorting

  /** Text that a template takes over for a value: an absent value becomes the word. */
  function ReceiptJson(v: Json): Text
    decreases v
  {
    match v
    case Undefined => Ascii("undefined")
    case Arr(items) => [OPEN_ARRAY] + ReceiptItems(items) + [CLOSE_ARRAY]
    case Obj(es) => [OPEN_OBJECT] + ReceiptFields(es, SortedKeys(es)) + [CLOSE_OBJECT]
    case _ => StableJson(v)
  }

  /** The items joined by commas; joining leaves an absent item empty. */
  function ReceiptItems(items: seq<Json>): Text
    decreases items
  {
    if items == [] then []
    else
      (if items[0].Undefined? then [] else ReceiptJson(items[0])) +
      (if |items| == 1 then [] else [COMMA] + ReceiptItems(items[1..]))
  }

  function ReceiptFields(es: seq<Entry>, keys: seq<Text>): Text
    requires forall k :: k in keys ==> k in Keys(es)
    decreases es, |keys|
  {
    if keys == [] then []
    else
      Quote(keys[0]) + [COLON] + ReceiptJson(Lookup(es, keys[0])) +
      (if |keys| == 1 then [] else [COMMA] + ReceiptFields(es, keys[1..]))
  }

  /** No value in it is absent, at any depth. */
  ghost predicate Defined(v: Json)
    decreases v
  {
    match v
    case Undefined => false
    case Arr(items) => forall i :: 0 <= i < |items| ==> Defined(items[i])
    case Obj(es) => forall i :: 0 <= i < |es| ==> Defined(es[i].value)
    case _ => true
  }

  // ---------- Where the two printers agree ----------

  lemma {:induction false} SameText(v: Json)
    requires Defined(v)
    ensures ReceiptJson(v) == StableJson(v)
    decreases v
  {
    match v
    case Arr(items) => SameItems(items);
    case Obj(es) => SameFields(es, SortedKeys(es));
    case _ =>
  }

  lemma {:induction false} SameItems(items: seq<Json>)
    requires forall i :: 0 <= i < |items| ==> Defined(items[i])
    ensures ReceiptItems(items) == ItemsText(items)
    decreases items
  {
    hide ReceiptJson, StableJson;
    if items != [] {
      assert Defined(items[0]);
      SameText(items[0]);
      SameItems(items[1..]);
    }
  }

  lemma {:induction false} SameFields(es: seq<Entry>, keys: seq<Text>)
    requires (forall k :: k in keys ==> k in Keys(es)) && forall i :: 0 <= i < |es| ==> Defined(es[i].value)
    ensures ReceiptFields(es, keys) == FieldsText(es, keys)
    decreases es, |keys|
  {
    hide ReceiptJson, StableJson, Quote, Defined;
    if keys != [] {
      SameText(Lookup(es, keys[0]));
      SameFields(es, keys[1..]);
    }
  }

  // ---------- And where they differ ----------

  /** The texts of a value with an absent part differ, whatever follows them. */
  lemma {:induction false} Differ(v: Json, s: Text, t: Text)
    requires WellFormed(v) && !Defined(v)
    ensures ReceiptJson(v) + s != StableJson(v) + t
    decreases v
  {
    match v
    case Undefined =>
      assert (Ascii("undefined") + s)[0] == 117 && (Ascii("null") + t)[0] == 110;
    case Arr(items) =>
      hide ReceiptItems, ItemsText, WellFormed, Defined;
      ItemsDiffer(items, s, t);
      BracketsDiffer(OPEN_ARRAY, ReceiptItems(items), ItemsText(items), CLOSE_ARRAY, s, t);
    case Obj(es) =>
      var i :| 0 <= i < |es| && !Defined(es[i].value);
      hide ReceiptFields, FieldsText, SortedKeys, WellFormed, Defined, Keys, Lookup, Sorting.UniqueKeys;
      var k := UndefinedMember(es, i);
      FieldsDiffer(es, SortedKeys(es), k, s, t);
      BracketsDiffer(OPEN_OBJECT, ReceiptFields(es, SortedKeys(es)), FieldsText(es, SortedKeys(es)), CLOSE_OBJECT, s,
        t);
  }

  lemma BracketsDiffer(open: CodeUnit, a: Text, b: Text, close: CodeUnit, s: Text, t: Text)
    requires a + [close] + s != b + [close] + t
    ensures [open] + a + [close] + s != [open] + b + [close] + t
  {
    Bracketed(open, a, close, s);
    Bracketed(open, b, close, t);
  }

  lemma Bracketed(open: CodeUnit, text: Text, close: CodeUnit, s: Text)
    ensures ([open] + text + [close] + s)[1..] == text + [close] + s
  {
  }

  /** With unique keys each member is found under its key, also an absent one. */
  lemma UndefinedMember(es: seq<Entry>, i: nat) returns (k: Text)
    requires Sorting.UniqueKeys(Keys(es), Self) && i < |es| && !Defined(es[i].value)
    ensures k in Keys(es) && !Defined(Lookup(es, k))
  {
    hide Defined, Keys, Sorting.UniqueKeys;
    k := es[i].key;
    assert Keys(es)[i] == k;
    var v := Lookup(es, k);
    var j :| 0 <= j < |es| && es[j] == Entry(k, v);
    OnePlace(es, i, j);
  }

  lemma OnePlace(es: seq<Entry>, i: nat, j: nat)
    requires i < |es| && j < |es| && Sorting.UniqueKeys(Keys(es), Self) && es[i].key == es[j].key
    ensures i == j
  {
    hide Keys;
    assert Self(Keys(es)[i]) == Self(Keys(es)[j]);
  }

  lemma {:induction false} ItemsDiffer(items: seq<Json>, s: Text, t: Text)
    requires (forall i :: 0 <= i < |items| ==> WellFormed(items[i])) && exists i ::
             0 <= i < |items| && !Defined(items[i])
    ensures ReceiptItems(items) + [CLOSE_ARRAY] + s != ItemsText(items) + [CLOSE_ARRAY] + t
    decreases items
  {
    hide ReceiptJson, StableJson, WellFormed, Defined, ItemsText, ItemsRest, ReceiptItems;
    ItemsStep(items, t);
    ReceiptItemsStep(items, s);
    if items[0].Undefined? {
      AbsentItem(items, s, t);
    } else if !Defined(items[0]) {
      Differ(items[0], ReceiptItemsRest(items, s), ItemsRest(items, t));
    } else {
      SameText(items[0]);
      var i :| 0 <= i < |items| && !Defined(items[i]);
      assert items[1..][i - 1] == items[i];
      ItemsDiffer(items[1..], s, t);
      RestDiffers(items, s, t);
      SamePrefix(ReceiptJson(items[0]), ReceiptItemsRest(items, s), ItemsRest(items, t));
    }
  }

  lemma SamePrefix(p: Text, a: Text, b: Text)
    requires a != b
    ensures p + a != p + b
  {
    assert (p + a)[|p|..] == a && (p + b)[|p|..] == b;
  }

  function ReceiptItemsRest(items: seq<Json>, s: Text): Text
    requires items != []
  {
    if |items| == 1 then [CLOSE_ARRAY] + s else [COMMA] + (ReceiptItems(items[1..]) + [CLOSE_ARRAY] + s)
  }

  lemma ReceiptItemsStep(items: seq<Json>, s: Text)
    requires items != []
    ensures ReceiptItems(items) + [CLOSE_ARRAY] + s ==
            (if items[0].Undefined? then [] else ReceiptJson(items[0])) + ReceiptItemsRest(items, s)
  {
    hide ReceiptJson;
  }

  lemma AbsentItem(items: seq<Json>, s: Text, t: Text)
    requires items != [] && items[0].Undefined?
    ensures [] + ReceiptItemsRest(items, s) != StableJson(items[0]) + ItemsRest(items, t)
  {
    hide ReceiptItems;
    assert (StableJson(items[0]) + ItemsRest(items, t))[0] == 110;
  }

  lemma RestDiffers(items: seq<Json>, s: Text, t: Text)
    requires |items| > 1 && ReceiptItems(items[1..]) + [CLOSE_ARRAY] + s != ItemsText(items[1..]) + [CLOSE_ARRAY] + t
    ensures ReceiptItemsRest(items, s) != ItemsRest(items, t)
  {
    hide ReceiptItems, ItemsText;
    SamePrefix([COMMA], ReceiptItems(items[1..]) + [CLOSE_ARRAY] + s, ItemsText(items[1..]) + [CLOSE_ARRAY] + t);
  }

  lemma {:induction false} FieldsDiffer(es: seq<Entry>, keys: seq<Text>, k: Text, s: Text, t: Text)
    requires (forall k :: k in keys ==> k in Keys(es)) && forall i :: 0 <= i < |es| ==> WellFormed(es[i].value)
    requires k in keys && !Defined(Lookup(es, k))
    ensures ReceiptFields(es, keys) + [CLOSE_OBJECT] + s != FieldsText(es, keys) + [CLOSE_OBJECT] + t
    decreases es, |keys|
  {
    hide ReceiptJson, StableJson, Quote, WellFormed, Defined, FieldsText, FieldsRest, ReceiptFieldsRest, ReceiptFields,
         Keys;
    FieldsStep(es, keys, t);
    ReceiptFieldsStep(es, keys, s);
    var v := Lookup(es, keys[0]);
    var a, b := ReceiptFieldsRest(es, keys, s), FieldsRest(es, keys, t);
    if !Defined(v) {
      Differ(v, a, b);
    } else {
      SameText(v);
      assert keys == [keys[0]] + keys[1..];
      FieldsDiffer(es, keys[1..], k, s, t);
      FieldsRestDiffers(es, keys, s, t);
      SamePrefix(StableJson(v), a, b);
    }
    SamePrefix([COLON], ReceiptJson(v) + a, StableJson(v) + b);
    SamePrefix(Quote(keys[0]), [COLON] + (ReceiptJson(v) + a), [COLON] + (StableJson(v) + b));
  }

  function ReceiptFieldsRest(es: seq<Entry>, keys: seq<Text>, s: Text): Text
    requires keys != [] && forall k :: k in keys ==> k in Keys(es)
  {
    if |keys| == 1 then [CLOSE_OBJECT] + s else [COMMA] + (ReceiptFields(es, keys[1..]) + [CLOSE_OBJECT] + s)
  }

  function ReceiptFieldsMore(es: seq<Entry>, keys: seq<Text>): Text
    requires keys != [] && forall k :: k in keys ==> k in Keys(es)
  {
    if |keys| == 1 then [] else [COMMA] + ReceiptFields(es, keys[1..])
  }

  lemma ReceiptFieldsUnfold(es: seq<Entry>, keys: seq<Text>)
    requires keys != [] && forall k :: k in keys ==> k in Keys(es)
    ensures ReceiptFields(es, keys) ==
            Quote(keys[0]) + [COLON] + ReceiptJson(Lookup(es, keys[0])) + ReceiptFieldsMore(es, keys)
  {
    hide ReceiptJson, Quote, Lookup, Keys;
  }

  lemma ReceiptMoreIsRest(es: seq<Entry>, keys: seq<Text>, s: Text)
    requires keys != [] && forall k :: k in keys ==> k in Keys(es)
    ensures ReceiptFieldsMore(es, keys) + [CLOSE_OBJECT] + s == ReceiptFieldsRest(es, keys, s)
  {
    hide ReceiptFields, Keys;
  }

  lemma ReceiptFieldsStep(es: seq<Entry>, keys: seq<Text>, s: Text)
    requires keys != [] && forall k :: k in keys ==> k in Keys(es)
    ensures ReceiptFields(es, keys) + [CLOSE_OBJECT] + s ==
            Quote(keys[0]) + ([COLON] + (ReceiptJson(Lookup(es, keys[0])) + ReceiptFieldsRest(es, keys, s)))
  {
    hide ReceiptJson, Quote, Lookup, ReceiptFields, ReceiptFieldsMore, ReceiptFieldsRest, Keys;
    ReceiptFieldsUnfold(es, keys);
    Reassociate(Quote(keys[0]), ReceiptJson(Lookup(es, keys[0])), ReceiptFieldsMore(es, keys), s);
    ReceiptMoreIsRest(es, keys, s);
  }

  lemma FieldsRestDiffers(es: seq<Entry>, keys: seq<Text>, s: Text, t: Text)
    requires |keys| > 1 && forall k :: k in keys ==> k in Keys(es)
    requires ReceiptFields(es, keys[1..]) + [CLOSE_OBJECT] + s != FieldsText(es, keys[1..]) + [CLOSE_OBJECT] + t
    ensures ReceiptFieldsRest(es, keys, s) != FieldsRest(es, keys, t)
  {
    hide ReceiptFields, FieldsText;
    SamePrefix([COMMA], ReceiptFields(es, keys[1..]) + [CLOSE_OBJECT] + s,
      FieldsText(es, keys[1..]) + [CLOSE_OBJECT] + t);
  }

  /** The two copies of the printer print the same text exactly for the values in which nothing is absent. */
  lemma PrintersAgreeExactly(v: Json)
    requires WellFormed(v)
    ensures ReceiptJson(v) == StableJson(v) <==> Defined(v)
  {
    hide ReceiptJson, StableJson, Defined, WellFormed;
    if Defined(v) {
      SameText(v);
    } else {
      Differ(v, [], []);
      assert ReceiptJson(v) + [] == ReceiptJson(v) && StableJson(v) + [] == StableJson(v);
    }
  }

  /** For others the receipts' copy is ambiguous: an absent item of an array leaves no trace. */
  lemma AbsentItemVanishes()
    ensures ReceiptJson(Arr([Undefined])) == ReceiptJson(Arr([])) && StableJson(Arr([Undefined])) != StableJson(Arr([]))
  {
    assert |StableJson(Arr([Undefined]))| == 6;
  }
}
