/**
  Normalisation of one file's parsed JSON into flat rows (app.py, the body of the
  `try` in `load_batch_json`). A row is built with `.get` on a dict; anything that is
  not a dict has no `.get`, so Python raises `AttributeError`, which is modelled as
  the absence of a row.
 */
module Records {
  import opened Json

  /** One displayed row: the originating file and six fields copied from the record.
      Values are whatever JSON the record holds there, not necessarily strings. */
  datatype Row = Row(
    filename: string,
    question: JsonValue,
    complexCoT: JsonValue,
    response: JsonValue,
    questionTranslated: JsonValue,
    complexCoTTranslated: JsonValue,
    responseTranslated: JsonValue)

  /** The default `""` used for every missing field. */
  const Missing: JsonValue := JStr("")

  /** `record.get(key, "")`. */
  function Plain(record: map<string, JsonValue>, key: string): (v: JsonValue) {
    if key in record then record[key] else Missing
  }

  /** `record.get(key, {}).get("result", "")`; `None` where the value under `key`
      is present but not a dict, so that the second `.get` raises. */
  function Translated(record: map<string, JsonValue>, key: string): (v: Option<JsonValue>) {
    if key !in record then Some(Missing)
    else match record[key]
      case JObj(t) => Some(Plain(t, "result"))
      case _ => None
  }

  /** A translated field that `.get("result")` can be applied to: absent, or an object. */
  predicate TranslationReadable(record: map<string, JsonValue>, key: string) {
    key !in record || record[key].JObj?
  }

  /** The record can be turned into a row without an exception. */
  predicate WellFormed(record: map<string, JsonValue>) {
    && TranslationReadable(record, "Question_translated")
    && TranslationReadable(record, "Complex_CoT_translated")
    && TranslationReadable(record, "Response_translated")
  }

  /** What a translated field of a row holds: the nested "result" when there is one, else `""`. */
  predicate TranslationCopied(record: map<string, JsonValue>, key: string, v: JsonValue) {
    if key in record && record[key].JObj? && "result" in record[key].fields
    then v == record[key].fields["result"]
    else v == Missing
  }

  /** What a plain field of a row holds: the record's value when present, else `""`. */
  predicate PlainCopied(record: map<string, JsonValue>, key: string, v: JsonValue) {
    if key in record then v == record[key] else v == Missing
  }

  /** The dict literal of app.py: a row for `record` read from file `name`, or `None`
      when one of the translated fields is present but not an object. */
  function RowOf(name: string, record: map<string, JsonValue>): (r: Option<Row>)
    ensures r.Some? <==> WellFormed(record)
    ensures r.Some? ==> r.value.filename == name
    ensures r.Some? ==> PlainCopied(record, "Question", r.value.question)
    ensures r.Some? ==> PlainCopied(record, "Complex_CoT", r.value.complexCoT)
    ensures r.Some? ==> PlainCopied(record, "Response", r.value.response)
    ensures r.Some? ==> TranslationCopied(record, "Question_translated", r.value.questionTranslated)
    ensures r.Some? ==> TranslationCopied(record, "Complex_CoT_translated", r.value.complexCoTTranslated)
    ensures r.Some? ==> TranslationCopied(record, "Response_translated", r.value.responseTranslated)
  {
    match (Translated(record, "Question_translated"),
           Translated(record, "Complex_CoT_translated"),
           Translated(record, "Response_translated"))
    case (Some(q), Some(c), Some(a)) =>
      Some(Row(name, Plain(record, "Question"), Plain(record, "Complex_CoT"),
               Plain(record, "Response"), q, c, a))
    case _ => None
  }

  /** One element of a list file: only an object has `.get`. */
  function ItemRow(name: string, item: JsonValue): (r: Option<Row>) {
    match item
    case JObj(record) => RowOf(name, record)
    case _ => None
  }

  /** The result of processing one file: the rows it appended, and whether the `except` ran. */
  datatype FileOutcome = FileOutcome(rows: seq<Row>, failed: bool)

  /** The inner `for item in content` loop: rows are appended one by one until an
      element raises; the exception leaves the loop, and what was appended stays. */
  function ListRows(name: string, items: seq<JsonValue>): (o: FileOutcome)
    ensures |o.rows| <= |items|
    ensures forall i :: 0 <= i < |o.rows| ==> ItemRow(name, items[i]) == Some(o.rows[i])
    ensures o.failed <==> |o.rows| < |items|
    ensures o.failed ==> ItemRow(name, items[|o.rows|]).None?
  {
    if |items| == 0 then FileOutcome([], false)
    else match ItemRow(name, items[0])
      case None => FileOutcome([], true)
      case Some(row) =>
        var rest := ListRows(name, items[1..]);
        FileOutcome([row] + rest.rows, rest.failed)
  }

  /** What processing a file yields, by the shape of its content: an unreadable file and a
      badly formed object give no row and a failure; a well-formed object gives one row; a list
      gives rows built from its first elements in order, failing iff fewer rows than elements;
      any other JSON value gives no row and no failure. */
  predicate OutcomeFitsShape(name: string, src: Source, o: FileOutcome) {
    match src
    case Unreadable => o == FileOutcome([], true)
    case Parsed(JObj(record)) =>
      (o.failed <==> !WellFormed(record)) && |o.rows| == (if o.failed then 0 else 1)
    case Parsed(JArr(items)) =>
      && |o.rows| <= |items|
      && (forall i :: 0 <= i < |o.rows| ==> ItemRow(name, items[i]) == Some(o.rows[i]))
      && (o.failed <==> |o.rows| < |items|)
    case Parsed(_) => o == FileOutcome([], false)
  }

  /** Processing one file of the batch, from its read outcome. */
  function FileRows(name: string, src: Source): (o: FileOutcome)
    ensures forall i :: 0 <= i < |o.rows| ==> o.rows[i].filename == name
    ensures OutcomeFitsShape(name, src, o)
  {
    match src
    case Unreadable => FileOutcome([], true)
    case Parsed(JArr(items)) =>
      var o := ListRows(name, items);
      assert forall i :: 0 <= i < |o.rows| ==> ItemRow(name, items[i]) == Some(o.rows[i]);
      o
    case Parsed(JObj(record)) =>
      (match RowOf(name, record)
       case Some(row) => FileOutcome([row], false)
       case None => FileOutcome([], true))
    case Parsed(_) => FileOutcome([], false)
  }

  /** A list of k objects whose translated fields are all readable gives exactly k rows,
      the i-th row built from the i-th element, and no warning. */
  lemma WellFormedListGivesOneRowPerElement(name: string, items: seq<JsonValue>)
    requires forall i :: 0 <= i < |items| ==> items[i].JObj? && WellFormed(items[i].fields)
    ensures FileRows(name, Parsed(JArr(items))).failed == false
    ensures |FileRows(name, Parsed(JArr(items))).rows| == |items|
    ensures forall i :: 0 <= i < |items| ==>
      Some(FileRows(name, Parsed(JArr(items))).rows[i]) == RowOf(name, items[i].fields)
  {
  }

  /** A failing list keeps the rows of the elements before the first bad one: the file
      is not all-or-nothing. */
  lemma FailingListKeepsPrefix(name: string, items: seq<JsonValue>, k: nat)
    requires k < |items|
    requires forall i :: 0 <= i < k ==> items[i].JObj? && WellFormed(items[i].fields)
    requires !(items[k].JObj? && WellFormed(items[k].fields))
    ensures FileRows(name, Parsed(JArr(items))).failed
    ensures |FileRows(name, Parsed(JArr(items))).rows| == k
    ensures forall i :: 0 <= i < k ==>
      Some(FileRows(name, Parsed(JArr(items))).rows[i]) == RowOf(name, items[i].fields)
  {
    assert ItemRow(name, items[k]).None?;
  }

  /** A file holding one well-formed object yields exactly the row the dict literal of
      app.py builds from it, with its defaults, and no warning. */
  lemma ObjectFileGivesItsRow(name: string, record: map<string, JsonValue>)
    requires WellFormed(record)
    ensures FileRows(name, Parsed(JObj(record))) == FileOutcome([RowOf(name, record).value], false)
  {
  }

  /** A list file stops only at a bad element: when it fails, the element right after the
      kept rows is one that cannot build a row. */
  lemma ListFileStopsAtBadElement(name: string, items: seq<JsonValue>)
    ensures var o := FileRows(name, Parsed(JArr(items)));
      o.failed ==> |o.rows| < |items| && ItemRow(name, items[|o.rows|]).None?
  {
  }
}
