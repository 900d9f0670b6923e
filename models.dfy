/**
 * The property-graph data model of the Veda client: a `ValueItem` is one
 * typed value with an optional language tag, and an `Individual` is a URI
 * with an insertion-ordered map from predicate name to a list of items.
 * Both map to and from the platform's wire JSON
 *   { "@": uri, predicate: [ {"data": d, "type": t, "lang": l?}, ... ], ... }.
 */
module Models {
  import opened Wrappers
  import opened Assoc
  import opened Json

  /**
   * `ValueItem(data, type_, lang=None)`. The fields hold JSON values: the
   * type and language tags are strings by convention, but `from_dict` copies
   * whatever the record holds, and None (JNull) when the key is missing.
   */
  datatype ValueItem = ValueItem(data: Json, typ: Json, lang: Json)
  {
    /** `to_dict`: "data" and "type" always, "lang" only when the tag is truthy. */
    function ToDict(): (r: Json)
      ensures r.JObj? && UniqueKeys(r.fields)
      ensures Get(r.fields, "data") == Some(data)
      ensures Get(r.fields, "type") == Some(typ)
      ensures "lang" in Keys(r.fields) <==> Truthy(lang)
      ensures Truthy(lang) ==> Get(r.fields, "lang") == Some(lang)
      ensures Keys(r.fields)[..2] == ["data", "type"]
      ensures |r.fields| == if Truthy(lang) then 3 else 2
    {
      if Truthy(lang) then
        var f := [("data", data), ("type", typ), ("lang", lang)];
        assert Keys(f) == ["data", "type", "lang"];
        assert Find(f, "data") == 0 && Find(f, "type") == 1 && Find(f, "lang") == 2;
        JObj(f)
      else
        var f := [("data", data), ("type", typ)];
        assert Keys(f) == ["data", "type"];
        assert Find(f, "data") == 0 && Find(f, "type") == 1;
        JObj(f)
    }

    /** `from_dict`: each field is read with `.get`, so a missing key gives None. */
    static function FromDict(record: Assoc<Json>): (v: ValueItem)
      ensures Get(record, "data") == Some(v.data) || ("data" !in Keys(record) && v.data == JNull)
      ensures Get(record, "type") == Some(v.typ) || ("type" !in Keys(record) && v.typ == JNull)
      ensures Get(record, "lang") == Some(v.lang) || ("lang" !in Keys(record) && v.lang == JNull)
    {
      ValueItem(GetOr(record, "data", JNull), GetOr(record, "type", JNull), GetOr(record, "lang", JNull))
    }

    /** The item as it reads back from its own `to_dict`: a falsy tag becomes None. */
    function WithoutFalsyLang(): ValueItem
    {
      if Truthy(lang) then this else this.(lang := JNull)
    }
  }

  /** Round trip of one item: data and type survive, a falsy language tag reads back as None. */
  lemma ValueItemRoundTrip(v: ValueItem)
    ensures ValueItem.FromDict(v.ToDict().fields) == v.WithoutFalsyLang()
    ensures v.WithoutFalsyLang().ToDict() == v.ToDict()
  {
    var f := v.ToDict().fields;
    assert GetOr(f, "data", JNull) == v.data;
    assert GetOr(f, "type", JNull) == v.typ;
  }

  /** The property map: predicate name to the ordered list of its items. */
  type PropMap = Assoc<seq<ValueItem>>

  /** `[v.to_dict() for v in values]` */
  function EncodeValues(vs: seq<ValueItem>): seq<Json>
  {
    seq(|vs|, i requires 0 <= i < |vs| => vs[i].ToDict())
  }

  /**
   * `[ValueItem.from_dict(item) for item in items]`: Python raises on the
   * first element that is not a dict (it has no `.get`), given as None.
   */
  function DecodeValues(items: seq<Json>): (r: Option<seq<ValueItem>>)
    ensures r.Some? <==> forall i :: 0 <= i < |items| ==> items[i].JObj?
    ensures r.Some? ==> |r.value| == |items|
    ensures r.Some? ==> forall i :: 0 <= i < |items| ==> r.value[i] == ValueItem.FromDict(items[i].fields)
  {
    if items == [] then Some([])
    else if !items[0].JObj? then None
    else
      match DecodeValues(items[1..])
      case None => None
      case Some(rest) => Some([ValueItem.FromDict(items[0].fields)] + rest)
  }

  function NormalizeValues(vs: seq<ValueItem>): seq<ValueItem>
  {
    seq(|vs|, i requires 0 <= i < |vs| => vs[i].WithoutFalsyLang())
  }

  /** Decoding an encoded list gives the same items, each with a falsy tag read back as None. */
  lemma ValuesRoundTrip(vs: seq<ValueItem>)
    ensures DecodeValues(EncodeValues(vs)) == Some(NormalizeValues(vs))
  {
    var items := EncodeValues(vs);
    forall i | 0 <= i < |vs| ensures ValueItem.FromDict(items[i].fields) == vs[i].WithoutFalsyLang() {
      ValueItemRoundTrip(vs[i]);
    }
    assert DecodeValues(items).Some?;
    assert DecodeValues(items).value == NormalizeValues(vs);
  }

  /** `key: [v.to_dict() for v in values]` */
  function Entry(p: (string, seq<ValueItem>)): (string, Json)
  {
    (p.0, JArr(EncodeValues(p.1)))
  }

  /** One wire entry per property, in map order. */
  function EncodedEntries(props: PropMap): (r: Assoc<Json>)
    ensures Keys(r) == Keys(props)
    ensures UniqueKeys(props) ==> UniqueKeys(r)
    decreases |props|
  {
    if props == [] then []
    else
      var rest := EncodedEntries(props[1..]);
      var r := [Entry(props[0])] + rest;
      assert r[1..] == rest;
      KeysCons(props);
      KeysCons(r);
      UniqueCons(props);
      UniqueCons(r);
      r
  }

  /**
   * `Individual.to_dict`: start from {"@": uri} and assign each property's
   * encoded list in map order.
   */
  function EncodeIndividual(uri: Json, props: PropMap): Json
  {
    JObj(PutAll([("@", uri)], EncodedEntries(props)))
  }

  /**
   * `to_dict` of an individual none of whose keys is "@": the uri under
   * "@", then one entry per property, in map order, each the list of the
   * items' `to_dict`.
   */
  lemma EncodeShape(uri: Json, props: PropMap)
    requires UniqueKeys(props) && "@" !in Keys(props)
    ensures EncodeIndividual(uri, props).fields == [("@", uri)] + EncodedEntries(props)
    ensures |EncodeIndividual(uri, props).fields| == |props| + 1
  {
    var entries := EncodedEntries(props);
    var all := [("@", uri)] + entries;
    assert all[1..] == entries;
    UniqueCons(all);
    PutAllFresh([("@", uri)], entries);
  }

  /**
   * The loop of `Individual.from_dict`: every key other than "@" whose value
   * is a list is assigned the decoded list; other keys are skipped.
   */
  function DecodeInto(acc: PropMap, fields: Assoc<Json>): Option<PropMap>
    decreases |fields|
  {
    if fields == [] then Some(acc)
    else
      var (k, v) := fields[0];
      if k != "@" && v.JArr? then
        match DecodeValues(v.items)
        case None => None
        case Some(vs) => DecodeInto(Put(acc, k, vs), fields[1..])
      else DecodeInto(acc, fields[1..])
  }

  function DecodeProperties(fields: Assoc<Json>): Option<PropMap>
  {
    DecodeInto([], fields)
  }

  predicate IsListEntry(e: (string, Json))
  {
    e.0 != "@" && e.1.JArr?
  }

  /**
   * Reference reading of a record: the list entries other than "@", in
   * record order, each decoded; None as soon as one of them holds an
   * element that is not an object.
   */
  function ListEntries(fields: Assoc<Json>): (r: Option<PropMap>)
    ensures r.Some? ==> |r.value| <= |fields|
  {
    if fields == [] then Some([])
    else if !IsListEntry(fields[0]) then ListEntries(fields[1..])
    else
      match DecodeValues(fields[0].1.items)
      case None => None
      case Some(vs) =>
        match ListEntries(fields[1..])
        case None => None
        case Some(rest) => Some([(fields[0].0, vs)] + rest)
  }

  /** Every element of a list entry is a dict. */
  ghost predicate ItemsAreObjects(items: seq<Json>)
  {
    forall j :: 0 <= j < |items| ==> items[j].JObj?
  }

  /** A record reads exactly when each of its list entries other than "@" holds only dicts. */
  lemma {:induction false} ListEntriesSome(fields: Assoc<Json>)
    ensures ListEntries(fields).Some? <==>
      forall i :: 0 <= i < |fields| && IsListEntry(fields[i]) ==> ItemsAreObjects(fields[i].1.items)
  {
    if fields != [] {
      var tail := fields[1..];
      ListEntriesSome(tail);
      assert forall i :: 0 <= i < |tail| ==> tail[i] == fields[i + 1];
    }
  }

  lemma {:induction false} ListEntriesKeys(fields: Assoc<Json>)
    requires ListEntries(fields).Some?
    ensures forall k :: k in Keys(ListEntries(fields).value) ==> k in Keys(fields)
    ensures UniqueKeys(fields) ==> UniqueKeys(ListEntries(fields).value)
  {
    if fields != [] {
      var tail := fields[1..];
      KeysCons(fields);
      UniqueCons(fields);
      ListEntriesKeys(tail);
      if IsListEntry(fields[0]) {
        var r := ListEntries(fields).value;
        var rest := ListEntries(tail).value;
        assert r == [(fields[0].0, DecodeValues(fields[0].1.items).value)] + rest;
        KeysCons(r);
        assert r[1..] == rest;
        UniqueCons(r);
      }
    }
  }

  /** The loop assigns, in record order, exactly the decoded list entries. */
  lemma {:induction false} DecodeIntoPutAll(acc: PropMap, fields: Assoc<Json>)
    decreases |fields|
    ensures DecodeInto(acc, fields) ==
      if ListEntries(fields).Some? then Some(PutAll(acc, ListEntries(fields).value)) else None
  {
    if fields != [] {
      var (k, v) := fields[0];
      var tail := fields[1..];
      DecodeIntoPutAll(acc, tail);
      if IsListEntry(fields[0]) && DecodeValues(v.items).Some? {
        var vs := DecodeValues(v.items).value;
        DecodeIntoPutAll(Put(acc, k, vs), tail);
        if ListEntries(tail).Some? {
          var rest := ListEntries(tail).value;
          assert ([(k, vs)] + rest)[1..] == rest;
        }
      }
    }
  }

  /**
   * `Individual.from_dict` reads exactly the list entries other than "@",
   * in record order, and fails exactly when one of them holds an element
   * that is not an object.
   */
  lemma DecodeMatchesListEntries(fields: Assoc<Json>)
    requires UniqueKeys(fields)
    ensures DecodeProperties(fields) == ListEntries(fields)
  {
    DecodeIntoPutAll([], fields);
    if ListEntries(fields).Some? {
      ListEntriesKeys(fields);
      assert [] + ListEntries(fields).value == ListEntries(fields).value;
      PutAllFresh([], ListEntries(fields).value);
    }
  }

  /**
   * Per key: a list entry other than "@" is decoded element-wise, length and
   * order kept; "@" and every key whose value is not a list are absent.
   */
  lemma {:induction false} ListEntriesLookup(fields: Assoc<Json>, i: nat)
    requires UniqueKeys(fields) && i < |fields|
    requires ListEntries(fields).Some?
    ensures IsListEntry(fields[i]) ==>
      Get(ListEntries(fields).value, fields[i].0) == DecodeValues(fields[i].1.items)
    ensures !IsListEntry(fields[i]) ==> fields[i].0 !in Keys(ListEntries(fields).value)
  {
    var r := ListEntries(fields).value;
    var tail := fields[1..];
    KeysCons(fields);
    UniqueCons(fields);
    ListEntriesKeys(tail);
    var rest := ListEntries(tail).value;
    if IsListEntry(fields[0]) {
      assert r == [(fields[0].0, DecodeValues(fields[0].1.items).value)] + rest;
      assert r[1..] == rest;
      KeysCons(r);
      GetCons(r, fields[i].0);
    } else {
      assert r == rest;
    }
    if i > 0 {
      assert tail[i - 1] == fields[i];
      assert fields[i].0 in Keys(tail);
      ListEntriesLookup(tail, i - 1);
    }
  }

  /** The properties as they read back: every item with a falsy tag has it as None. */
  function NormalizeProps(props: PropMap): PropMap
    decreases |props|
  {
    if props == [] then [] else [(props[0].0, NormalizeValues(props[0].1))] + NormalizeProps(props[1..])
  }

  /** An encoded property other than "@" is a list entry that decodes to the normalized items. */
  lemma EntryDecodes(p: (string, seq<ValueItem>))
    requires p.0 != "@"
    ensures IsListEntry(Entry(p)) && DecodeValues(Entry(p).1.items) == Some(NormalizeValues(p.1))
  {
    ValuesRoundTrip(p.1);
  }

  lemma ListEntriesCons(fields: Assoc<Json>, vs: seq<ValueItem>, rest: PropMap)
    requires fields != [] && IsListEntry(fields[0])
    requires DecodeValues(fields[0].1.items) == Some(vs) && ListEntries(fields[1..]) == Some(rest)
    ensures ListEntries(fields) == Some([(fields[0].0, vs)] + rest)
  {
  }

  /** The list entries of the encoded properties decode to the normalized properties. */
  lemma {:induction false} ListEntriesOfEncoded(props: PropMap)
    decreases |props|
    requires "@" !in Keys(props)
    ensures ListEntries(EncodedEntries(props)) == Some(NormalizeProps(props))
  {
    if props != [] {
      var e := EncodedEntries(props);
      KeysCons(props);
      ListEntriesOfEncoded(props[1..]);
      EntryDecodes(props[0]);
      assert e[1..] == EncodedEntries(props[1..]);
      ListEntriesCons(e, NormalizeValues(props[0].1), NormalizeProps(props[1..]));
    }
  }

  /**
   * Round trip of an individual none of whose keys is "@": `from_dict` of
   * `to_dict` has the same uri, the same keys in the same order, and per key
   * the same items, each with a falsy language tag read back as None.
   */
  lemma IndividualRoundTrip(uri: Json, props: PropMap)
    requires UniqueKeys(props) && "@" !in Keys(props)
    ensures var fields := EncodeIndividual(uri, props).fields;
      GetOr(fields, "@", JNull) == uri &&
      DecodeProperties(fields) == Some(NormalizeProps(props))
  {
    EncodeShape(uri, props);
    var fields := EncodeIndividual(uri, props).fields;
    var entries := EncodedEntries(props);
    GetCons(fields, "@");
    assert fields[1..] == entries;
    assert UniqueKeys(entries);
    ListEntriesOfEncoded(props);
    DecodeMatchesListEntries(entries);
    assert DecodeProperties(fields) == DecodeInto([], entries);
  }

  /**
   * An element of the list handed to `set_property`: a `ValueItem` object,
   * or any other JSON value (a dict is converted, everything else skipped).
   */
  datatype SetInput = Item(item: ValueItem) | Raw(json: Json)

  /** What `set_property` appends for one input, if anything. */
  function Accept(x: SetInput): seq<ValueItem>
  {
    match x
    case Item(v) => [v]
    case Raw(j) => if j.JObj? then [ValueItem.FromDict(j.fields)] else []
  }

  /** The list `set_property` builds from its inputs. */
  function Convert(values: seq<SetInput>): (r: seq<ValueItem>)
    ensures |r| <= |values|
  {
    if values == [] then []
    else Convert(values[..|values| - 1]) + Accept(values[|values| - 1])
  }

  /** Given only `ValueItem` objects, `set_property` stores exactly them, in order. */
  lemma {:induction false} ConvertItems(values: seq<SetInput>)
    requires forall i :: 0 <= i < |values| ==> values[i].Item?
    ensures |Convert(values)| == |values|
    ensures forall i :: 0 <= i < |values| ==> Convert(values)[i] == values[i].item
  {
    if values != [] {
      var init := values[..|values| - 1];
      assert forall i :: 0 <= i < |init| ==> init[i] == values[i];
      ConvertItems(init);
    }
  }

  /** Inputs that are neither items nor dicts are skipped: none of them stores anything. */
  lemma {:induction false} ConvertSkipsOthers(values: seq<SetInput>)
    requires forall i :: 0 <= i < |values| ==> values[i].Raw? && !values[i].json.JObj?
    ensures Convert(values) == []
  {
    if values != [] {
      var init := values[..|values| - 1];
      assert forall i :: 0 <= i < |init| ==> init[i] == values[i];
      ConvertSkipsOthers(init);
    }
  }

  /** One turn of the `set_property` loop: appending the accepted input extends the stored list. */
  lemma SetStep(m: PropMap, key: string, values: seq<SetInput>, i: nat)
    requires i < |values|
    ensures var c := Convert(values[..i]);
      GetOr(Put(m, key, c), key, []) == c &&
      Put(Put(m, key, c), key, c + Accept(values[i])) == Put(m, key, Convert(values[..i + 1])) &&
      (Accept(values[i]) == [] ==> Put(m, key, c) == Put(m, key, Convert(values[..i + 1])))
  {
    var c := Convert(values[..i]);
    assert values[..i + 1][..i] == values[..i];
    PutPut(m, key, c, c + Accept(values[i]));
    if Accept(values[i]) == [] {
      assert c + Accept(values[i]) == c;
    }
  }

  class Individual {
    var uri: Json
    var properties: PropMap

    ghost predicate Valid()
      reads this
    {
      UniqueKeys(properties)
    }

    /** `Individual(uri, properties=None)`: `properties or {}`. */
    constructor(uri: Json, properties: Option<PropMap>)
      requires properties.Some? ==> UniqueKeys(properties.value)
      ensures Valid() && this.uri == uri
      ensures this.properties == if properties.Some? then properties.value else []
    {
      this.uri := uri;
      this.properties := if properties.Some? then properties.value else [];
    }

    /**
     * `Individual.from_dict(data)`. Python raises AttributeError when the
     * record, or an element of one of its lists, is not a dict; that is None.
     */
    static method FromDict(record: Json) returns (r: Option<Individual>)
      ensures r.Some? <==> record.JObj? && DecodeProperties(record.fields).Some?
      ensures r.Some? ==> fresh(r.value) && r.value.Valid()
      ensures r.Some? ==> r.value.uri == GetOr(record.fields, "@", JNull)
      ensures r.Some? ==> r.value.properties == DecodeProperties(record.fields).value
    {
      if !record.JObj? {
        return None;
      }
      var fields := record.fields;
      var uri := GetOr(fields, "@", JNull);
      var properties: PropMap := [];
      var i := 0;
      while i < |fields|
        invariant 0 <= i <= |fields|
        invariant UniqueKeys(properties)
        invariant DecodeInto(properties, fields[i..]) == DecodeProperties(fields)
      {
        var (key, value) := fields[i];
        assert fields[i..][1..] == fields[i + 1..];
        if key != "@" && value.JArr? {
          var items := DecodeValues(value.items);
          if items.None? {
            return None;
          }
          PutKeys(properties, key, items.value);
          properties := Put(properties, key, items.value);
        }
        i := i + 1;
      }
      var ind := new Individual(uri, Some(properties));
      return Some(ind);
    }

    /** `to_dict` */
    function ToDict(): (r: Json)
      reads this
      ensures r.JObj? && |r.fields| > 0 && r.fields[0].0 == "@"
      ensures Valid() && "@" !in Keys(properties) ==>
        r.fields == [("@", uri)] + EncodedEntries(properties)
    {
      var r := PutAll([("@", uri)], EncodedEntries(properties));
      PutAllPrefix([("@", uri)], EncodedEntries(properties));
      assert Keys(r)[0] == Keys([("@", uri)])[0] == "@";
      assert UniqueKeys(properties) && "@" !in Keys(properties) ==>
        EncodeIndividual(uri, properties).fields == [("@", uri)] + EncodedEntries(properties) by {
        if UniqueKeys(properties) && "@" !in Keys(properties) {
          EncodeShape(uri, properties);
        }
      }
      EncodeIndividual(uri, properties)
    }

    /** `get_property(key)`: the stored list, or [] for a missing key. */
    function GetProperty(key: string): (r: seq<ValueItem>)
      reads this
      ensures key in Keys(properties) ==> Get(properties, key) == Some(r)
      ensures key !in Keys(properties) ==> r == []
    {
      GetOr(properties, key, [])
    }

    /** `get_first_value(key)`: data of the first item, None when missing or empty. */
    function GetFirstValue(key: string): (r: Json)
      reads this
      ensures Get(properties, key).None? ==> r == JNull
      ensures Get(properties, key) == Some([]) ==> r == JNull
      ensures Get(properties, key).Some? && Get(properties, key).value != [] ==>
        r == Get(properties, key).value[0].data
    {
      var values := GetProperty(key);
      if values != [] then values[0].data else JNull
    }

    /**
     * `set_property(key, values)`: the key's list is replaced by a fresh one
     * holding the accepted inputs in order; the key keeps its place, or is
     * added at the end.
     */
    method SetProperty(key: string, values: seq<SetInput>)
      requires Valid()
      modifies this
      ensures Valid() && uri == old(uri)
      ensures properties == Put(old(properties), key, Convert(values))
      ensures GetProperty(key) == Convert(values)
      ensures forall k :: k != key ==> Get(properties, k) == old(Get(properties, k))
      ensures key in old(Keys(properties)) ==> Keys(properties) == old(Keys(properties))
      ensures key !in old(Keys(properties)) ==> Keys(properties) == old(Keys(properties)) + [key]
    {
      properties := Put(properties, key, []);
      assert values[..0] == [];
      for i := 0 to |values|
        invariant uri == old(uri)
        invariant properties == Put(old(properties), key, Convert(values[..i]))
      {
        SetStep(old(properties), key, values, i);
        match values[i]
        case Item(v) =>
          properties := Put(properties, key, GetProperty(key) + [v]);
        case Raw(j) =>
          if j.JObj? {
            properties := Put(properties, key, GetProperty(key) + [ValueItem.FromDict(j.fields)]);
          }
      }
      assert values[..|values|] == values;
      PutKeys(old(properties), key, Convert(values));
      forall k | k != key ensures Get(properties, k) == old(Get(properties, k)) {
        PutOther(old(properties), key, Convert(values), k);
      }
    }

    /**
     * `add_value(key, data, type_, lang)`: creates the key with an empty list
     * when missing, then appends one new item; nothing is deduplicated.
     */
    method AddValue(key: string, data: Json, typ: Json, lang: Json)
      requires Valid()
      modifies this
      ensures Valid() && uri == old(uri)
      ensures properties == Put(old(properties), key, old(GetProperty(key)) + [ValueItem(data, typ, lang)])
      ensures GetProperty(key) == old(GetProperty(key)) + [ValueItem(data, typ, lang)]
      ensures forall k :: k != key ==> Get(properties, k) == old(Get(properties, k))
      ensures key in old(Keys(properties)) ==> Keys(properties) == old(Keys(properties))
      ensures key !in old(Keys(properties)) ==> Keys(properties) == old(Keys(properties)) + [key]
    {
      if key !in Keys(properties) {
        properties := Put(properties, key, []);
      }
      PutPut(old(properties), key, [], old(GetProperty(key)) + [ValueItem(data, typ, lang)]);
      properties := Put(properties, key, GetProperty(key) + [ValueItem(data, typ, lang)]);
      PutKeys(old(properties), key, old(GetProperty(key)) + [ValueItem(data, typ, lang)]);
      forall k | k != key ensures Get(properties, k) == old(Get(properties, k)) {
        PutOther(old(properties), key, old(GetProperty(key)) + [ValueItem(data, typ, lang)], k);
      }
    }

    /** `remove_property(key)`: deletes the key if present; silent otherwise. */
    method RemoveProperty(key: string)
      requires Valid()
      modifies this
      ensures Valid() && uri == old(uri)
      ensures properties == Delete(old(properties), key)
      ensures key !in Keys(properties)
      ensures key !in old(Keys(properties)) ==> properties == old(properties)
      ensures forall k :: k != key ==> Get(properties, k) == old(Get(properties, k))
    {
      if key in Keys(properties) {
        properties := Delete(properties, key);
      }
      DeleteUnique(old(properties), key);
      forall k | k != key ensures Get(properties, k) == old(Get(properties, k)) {
        DeleteOther(old(properties), key, k);
      }
    }
  }
}
