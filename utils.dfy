/**
 * The helper builders next to the model: the query-string builder, and
 * thin compositions that create individuals and items and read a
 * property's data back out.
 */
module Utils {
  import opened Wrappers
  import opened Assoc
  import opened Json
  import opened Text
  import opened Models

  /**
   * A condition's value. A string is compared quoted; any other value is
   * written with Python's `str()`, of which only integers are modelled.
   */
  datatype QueryValue = QStr(s: string) | QInt(n: int)

  /** The operator the parts are joined with. */
  const Separator: string := " && "

  /** One condition: `('field'=='value')` for a string (no escaping), `('field'==value)` otherwise. */
  function QueryPart(field: string, value: QueryValue): string
  {
    match value
    case QStr(s) => "('" + field + "'=='" + s + "')"
    case QInt(n) => "('" + field + "'==" + IntToString(n) + ")"
  }

  /** The conditions' parts, in mapping order. */
  function QueryParts(conditions: Assoc<QueryValue>): (parts: seq<string>)
    ensures |parts| == |conditions|
  {
    seq(|conditions|, i requires 0 <= i < |conditions| => QueryPart(conditions[i].0, conditions[i].1))
  }

  /** `build_query_string(conditions)`: the parts, built in a loop, joined by " && ". */
  method BuildQueryString(conditions: Assoc<QueryValue>) returns (q: string)
    ensures q == Join(QueryParts(conditions), Separator)
  {
    var parts: seq<string> := [];
    for i := 0 to |conditions|
      invariant parts == QueryParts(conditions[..i])
    {
      var (field, value) := conditions[i];
      parts := parts + [QueryPart(field, value)];
    }
    assert conditions[..|conditions|] == conditions;
    q := Join(parts, Separator);
  }

  /** The query is empty exactly when there are no conditions. */
  lemma QueryEmpty(conditions: Assoc<QueryValue>)
    ensures Join(QueryParts(conditions), Separator) == [] <==> conditions == []
  {
    var parts := QueryParts(conditions);
    if conditions != [] {
      PartShape(conditions[0].0, conditions[0].1);
      JoinFirst(parts, Separator);
    }
  }

  /** Every part is bracketed: it opens with "('" and closes with ")". */
  lemma PartShape(field: string, value: QueryValue)
    ensures var p := QueryPart(field, value);
      |p| >= 2 && p[..2] == "('" && p[|p| - 1] == ')'
  {
  }

  /**
   * A part compares the quoted field with the value: a string value quoted
   * as it is, an integer as text that `int()` reads back to it.
   */
  lemma PartValue(field: string, value: QueryValue)
    ensures var p := QueryPart(field, value); var k := |field| + 5;
      k < |p| && p[..k] == "('" + field + "'==" && p[|p| - 1] == ')' &&
      match value
      case QStr(s) => p[k..|p| - 1] == "'" + s + "'"
      case QInt(n) => ParseInt(p[k..|p| - 1]) == Some(n)
  {
    var p := QueryPart(field, value);
    var k := |field| + 5;
    match value
    case QStr(s) =>
      assert p == "('" + field + "'==" + ("'" + s + "'") + ")";
    case QInt(n) =>
      assert p == "('" + field + "'==" + IntToString(n) + ")";
      assert p[k..|p| - 1] == IntToString(n);
      IntToStringRoundTrip(n);
  }

  /** A part neither starts nor ends with a character of the separator. */
  lemma PartEnds(field: string, value: QueryValue)
    ensures var p := QueryPart(field, value);
      |p| > 0 && p[0] !in Separator && p[|p| - 1] !in Separator
  {
    PartShape(field, value);
    var p := QueryPart(field, value);
    assert p[0] == '(';
    assert Separator == [' ', '&', '&', ' '];
  }

  /** Occurrences of the separator in a condition's own text. */
  function ValueCount(value: QueryValue): nat
  {
    match value
    case QStr(s) => Count(s, Separator)
    case QInt(_) => 0
  }

  /** Occurrences of the separator inside the fields and string values of the conditions. */
  function ConditionsCount(conditions: Assoc<QueryValue>): nat
  {
    if conditions == [] then 0
    else Count(conditions[0].0, Separator) + ValueCount(conditions[0].1) + ConditionsCount(conditions[1..])
  }

  /** A literal holding no space holds no separator. */
  lemma NoSpace(s: string)
    requires forall i :: 0 <= i < |s| ==> s[i] != ' '
    ensures Count(s, Separator) == 0
  {
    CountNone(s, Separator);
  }

  /** The decimal text of an integer holds no separator. */
  lemma IntTextCount(n: int)
    ensures Count(IntToString(n), Separator) == 0
  {
    var s := IntToString(n);
    assert forall i :: 0 <= i < |s| ==> s[i] != ' ';
    NoSpace(s);
  }

  /** The quotes and brackets of a part add no separator: only the field and the value can hold one. */
  lemma PartCount(field: string, value: QueryValue)
    ensures Count(QueryPart(field, value), Separator) == Count(field, Separator) + ValueCount(value)
  {
    var open := "('";
    NoSpace(open);
    CountAppend(open, field, Separator);
    match value
    case QStr(s) => StringPartCount(open + field, s);
    case QInt(n) => IntPartCount(open + field, n);
  }

  lemma StringPartCount(head: string, s: string)
    ensures Count(head + "'=='" + s + "')", Separator) == Count(head, Separator) + Count(s, Separator)
  {
    var mid := "'=='";
    var close := "')";
    NoSpace(mid);
    NoSpace(close);
    CountAppend(head, mid, Separator);
    CountAppend(head + mid, s, Separator);
    CountAppend(head + mid + s, close, Separator);
  }

  lemma IntPartCount(head: string, n: int)
    ensures Count(head + "'==" + IntToString(n) + ")", Separator) == Count(head, Separator)
  {
    var mid := "'==";
    var digits := IntToString(n);
    var close := ")";
    NoSpace(mid);
    NoSpace(close);
    IntTextCount(n);
    CountAppend(head, mid, Separator);
    CountAppend(head + mid, digits, Separator);
    CountAppend(head + mid + digits, close, Separator);
  }

  lemma {:induction false} PartsCount(conditions: Assoc<QueryValue>)
    ensures SumCounts(QueryParts(conditions), Separator) == ConditionsCount(conditions)
  {
    if conditions != [] {
      assert QueryParts(conditions)[1..] == QueryParts(conditions[1..]);
      PartCount(conditions[0].0, conditions[0].1);
      PartsCount(conditions[1..]);
    }
  }

  /**
   * n conditions give n - 1 separators between the parts, plus whatever
   * the fields and string values themselves hold.
   */
  lemma QuerySeparators(conditions: Assoc<QueryValue>)
    requires conditions != []
    ensures Count(Join(QueryParts(conditions), Separator), Separator) ==
      |conditions| - 1 + ConditionsCount(conditions)
  {
    var parts := QueryParts(conditions);
    forall i | 0 <= i < |parts|
      ensures |parts[i]| > 0 && parts[i][0] !in Separator && parts[i][|parts[i]| - 1] !in Separator
    {
      PartEnds(conditions[i].0, conditions[i].1);
    }
    JoinCount(parts, Separator);
    PartsCount(conditions);
  }

  /** When no field and no string value holds " && ", the query holds exactly n - 1 of them. */
  lemma {:induction false} QuerySeparatorsExact(conditions: Assoc<QueryValue>)
    requires conditions != []
    requires forall i :: 0 <= i < |conditions| ==>
      Count(conditions[i].0, Separator) == 0 && ValueCount(conditions[i].1) == 0
    ensures Count(Join(QueryParts(conditions), Separator), Separator) == |conditions| - 1
  {
    QuerySeparators(conditions);
    NoneInside(conditions);
  }

  lemma {:induction false} NoneInside(conditions: Assoc<QueryValue>)
    requires forall i :: 0 <= i < |conditions| ==>
      Count(conditions[i].0, Separator) == 0 && ValueCount(conditions[i].1) == 0
    ensures ConditionsCount(conditions) == 0
  {
    if conditions != [] {
      assert forall i :: 0 <= i < |conditions[1..]| ==> conditions[1..][i] == conditions[i + 1];
      NoneInside(conditions[1..]);
    }
  }

  /** What `create_individual` stores: each key, in order, with what `set_property` makes of its list. */
  function ConvertProps(props: Assoc<seq<SetInput>>): (r: PropMap)
    ensures Keys(r) == Keys(props)
  {
    if props == [] then []
    else
      var init := props[..|props| - 1];
      var last := props[|props| - 1];
      var r := ConvertProps(init) + [(last.0, Convert(last.1))];
      assert props == init + [last];
      KeysConcat(init, [last]);
      KeysConcat(ConvertProps(init), [(last.0, Convert(last.1))]);
      r
  }

  /** One turn of the `create_individual` loop: a key not seen yet is appended. */
  lemma CreateStep(props: Assoc<seq<SetInput>>, i: nat)
    requires UniqueKeys(props) && i < |props|
    ensures Put(ConvertProps(props[..i]), props[i].0, Convert(props[i].1)) == ConvertProps(props[..i + 1])
  {
    var done := ConvertProps(props[..i]);
    forall j | 0 <= j < i ensures Keys(done)[j] != props[i].0 {
      assert props[..i][j] == props[j];
    }
    PutAbsent(done, props[i].0, Convert(props[i].1));
    assert props[..i + 1][..i] == props[..i];
  }

  /**
   * `create_individual(uri, properties)`: a fresh individual with that uri,
   * and `set_property` called for each key in mapping order.
   */
  method CreateIndividual(uri: Json, props: Assoc<seq<SetInput>>) returns (ind: Individual)
    requires UniqueKeys(props)
    ensures fresh(ind) && ind.Valid()
    ensures ind.uri == uri && ind.properties == ConvertProps(props)
  {
    ind := new Individual(uri, None);
    assert props[..0] == [];
    for i := 0 to |props|
      invariant ind.Valid() && ind.uri == uri
      invariant ind.properties == ConvertProps(props[..i])
    {
      var (key, values) := props[i];
      CreateStep(props, i);
      ind.SetProperty(key, values);
    }
    assert props[..|props|] == props;
  }

  /** Per key, the created individual holds exactly what `set_property` makes of that key's list. */
  lemma {:induction false} CreatedLookup(props: Assoc<seq<SetInput>>, i: nat)
    decreases |props|
    requires UniqueKeys(props) && i < |props|
    ensures Get(ConvertProps(props), props[i].0) == Some(Convert(props[i].1))
  {
    var n := |props| - 1;
    var init := props[..n];
    var done := ConvertProps(init);
    CreateStep(props, n);
    assert ConvertProps(props) == Put(done, props[n].0, Convert(props[n].1)) by {
      assert props[..n + 1] == props;
    }
    if i < n {
      UniquePrefix(props, n);
      assert init[i] == props[i];
      CreatedLookup(init, i);
      PutOther(done, props[n].0, Convert(props[n].1), props[i].0);
    }
  }

  /** `create_value_item(data, type_, lang)` */
  function CreateValueItem(data: Json, typ: Json, lang: Json): (v: ValueItem)
    ensures v.data == data && v.typ == typ && v.lang == lang
    ensures ValueItem.FromDict(v.ToDict().fields).lang == if Truthy(lang) then lang else JNull
  {
    ValueItemRoundTrip(ValueItem(data, typ, lang));
    ValueItem(data, typ, lang)
  }

  /** The `data` of each item, in order. */
  function Datas(vs: seq<ValueItem>): (r: seq<Json>)
    ensures |r| == |vs|
  {
    seq(|vs|, i requires 0 <= i < |vs| => vs[i].data)
  }

  /** Appending one item appends its data. */
  lemma DatasAppend(vs: seq<ValueItem>, v: ValueItem)
    ensures Datas(vs + [v]) == Datas(vs) + [v.data]
  {
  }

  /**
   * After `add_value(key, data, ...)`, which stores the old list plus one
   * item, `extract_values(key)` is the old data followed by `data`.
   */
  lemma AddValueExtracts(m: PropMap, key: string, data: Json, typ: Json, lang: Json)
    ensures var added := Put(m, key, GetOr(m, key, []) + [ValueItem(data, typ, lang)]);
      Datas(GetOr(added, key, [])) == Datas(GetOr(m, key, [])) + [data]
  {
    DatasAppend(GetOr(m, key, []), ValueItem(data, typ, lang));
  }

  /**
   * `extract_values(individual, key)`: the data of each item of
   * `get_property(key)`, in order; [] for a missing key.
   */
  function ExtractValues(ind: Individual, key: string): (r: seq<Json>)
    reads ind
    ensures |r| == |ind.GetProperty(key)|
    ensures forall i :: 0 <= i < |r| ==> r[i] == ind.GetProperty(key)[i].data
    ensures key !in Keys(ind.properties) ==> r == []
    ensures r != [] ==> ind.GetFirstValue(key) == r[0]
    ensures r == [] ==> ind.GetFirstValue(key) == JNull
  {
    Datas(ind.GetProperty(key))
  }
}
