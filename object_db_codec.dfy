/**
 * The object-type database (`ObjectDb`) as values, and its XML codec as
 * functions over the document tree: `Decode` is what `ObjectDb.FromXml`
 * computes, `Encode` the tree `ObjectDb.GetXmlBytes` writes.
 */
module ObjectDbCodec {
  import opened Wrappers
  import opened DotNetText
  import opened XmlTree

  /** `ObjectDbField`: one metadata slot of an object type. */
  datatype ObjectDbField = ObjectDbField(id: int32, fieldType: string, name: string, values: string, notes: string)

  /**
   * `ObjectDbEntry`. `name`, `notes` and `files` start out null (`None`) and
   * stay so unless the document has the tag; `model` and `type` start out "".
   */
  datatype ObjectDbEntry = ObjectDbEntry(
    name: Option<string>,
    notes: Option<string>,
    files: Option<string>,
    model: string,
    entryType: string,
    known: int32,
    complete: int32,
    category: int32,
    fields: seq<ObjectDbField>)

  /** A freshly constructed `ObjectDbEntry`. */
  const NewEntry: ObjectDbEntry := ObjectDbEntry(None, None, None, "", "", 0, 0, 0, [])

  /**
   * The state of an `ObjectDb`. The two dictionaries the encoder enumerates are
   * kept as lists in insertion order, which is the order `Dictionary` enumerates
   * them in while nothing is removed.
   */
  datatype Database = Database(
    timestamp: int32,
    categories: seq<(int32, string)>,
    entries: seq<(string, ObjectDbEntry)>,
    idToModel: map<string, string>)

  /** The exceptions `FromXml` can end in. */
  datatype DecodeError =
    | NoDatabaseRoot                // no `/database` element: null dereference
    | MissingAttribute(attribute: string)  // `Attributes[...]` gave null
    | NotAnInteger(text: string)    // `int.Parse` threw
    | DuplicateCategory(categoryId: int32)  // `Categories.Add` threw
    | DuplicateEntry(entryId: string)     // `Entries.Add` threw

  /** `ContainsKey` on an association list. */
  predicate HasKey<K(==), V>(list: seq<(K, V)>, key: K) {
    exists j | 0 <= j < |list| :: list[j].0 == key
  }

  /** What a `Dictionary` guarantees of its keys. */
  ghost predicate DistinctKeys<K, V>(list: seq<(K, V)>) {
    forall i, j :: 0 <= i < j < |list| ==> list[i].0 != list[j].0
  }

  /** The `IdToModel` update made after an entry is added. */
  function IndexEntry(index: map<string, string>, id: string, e: ObjectDbEntry): map<string, string> {
    if Trim(e.model) != "" then index[id := e.model] else index
  }

  /** The `IdToModel` index that adding `entries` in order builds. */
  function ModelIndex(entries: seq<(string, ObjectDbEntry)>): map<string, string> {
    if entries == [] then map[]
    else
      var last := entries[|entries| - 1];
      IndexEntry(ModelIndex(entries[..|entries| - 1]), last.0, last.1)
  }

  // ---------------------------------------------------------------- decoding

  /** `n.Attributes[key].InnerText`. */
  function TextAttribute(n: Node, key: string): (r: Result<string, DecodeError>)
    ensures r.Success? <==> n.Element? && key in n.attrs
    ensures r.Success? ==> r.value == n.attrs[key]
    ensures r.Failure? ==> r.error == MissingAttribute(key)
  {
    match Attribute(n, key)
    case None => Failure(MissingAttribute(key))
    case Some(t) => Success(t)
  }

  /** `int.Parse(n.Attributes[key].InnerText)`. */
  function IntAttribute(n: Node, key: string): (r: Result<int32, DecodeError>)
    ensures r.Success? <==> n.Element? && key in n.attrs && ParseInt(n.attrs[key]).Some?
    ensures r.Success? ==> r.value == ParseInt(n.attrs[key]).value
  {
    var t :- TextAttribute(n, key);
    match ParseInt(t)
    case None => Failure(NotAnInteger(t))
    case Some(v) => Success(v)
  }

  /** `ObjectDbField.FromXml`: the five attributes, read in source order. */
  function FieldFromXml(n: Node): (r: Result<ObjectDbField, DecodeError>)
  {
    var id :- IntAttribute(n, "id");
    var fieldType :- TextAttribute(n, "type");
    var name :- TextAttribute(n, "name");
    var values :- TextAttribute(n, "values");
    var notes :- TextAttribute(n, "notes");
    Success(ObjectDbField(id, fieldType, name, values, notes))
  }

  /** One round of the tag `switch` in `ObjectDbEntry.FromXml`. */
  function EntryStep(e: ObjectDbEntry, n: Node): Result<ObjectDbEntry, DecodeError> {
    if !n.Element? then Success(e)
    else if n.name == "name" then Success(e.(name := Some(InnerText(n))))
    else if n.name == "type" then Success(e.(entryType := InnerText(n)))
    else if n.name == "model" then Success(e.(model := InnerText(n)))
    else if n.name == "flags" then
      var known :- IntAttribute(n, "known");
      var complete :- IntAttribute(n, "complete");
      Success(e.(known := known, complete := complete))
    else if n.name == "category" then
      var category :- IntAttribute(n, "id");
      Success(e.(category := category))
    else if n.name == "notes" then Success(e.(notes := Some(InnerText(n))))
    else if n.name == "files" then Success(e.(files := Some(InnerText(n))))
    else if n.name == "field" then
      var f :- FieldFromXml(n);
      Success(e.(fields := e.fields + [f]))
    else Success(e)
  }

  /** A `foreach` over child nodes that stops at the first exception. */
  function FoldNodes<A>(step: (A, Node) -> Result<A, DecodeError>, acc: A, nodes: seq<Node>): Result<A, DecodeError> {
    if nodes == [] then Success(acc)
    else
      var next :- step(acc, nodes[0]);
      FoldNodes(step, next, nodes[1..])
  }

  /** `ObjectDbEntry.FromXml(nodes)`. */
  function ParseEntry(nodes: seq<Node>): Result<ObjectDbEntry, DecodeError> {
    FoldNodes(EntryStep, NewEntry, nodes)
  }

  /** One `Categories.Add(int.Parse(id), InnerText)` for a child of `<categories>`. */
  function CategoryStep(categories: seq<(int32, string)>, n: Node): Result<seq<(int32, string)>, DecodeError> {
    var id :- IntAttribute(n, "id");
    if HasKey(categories, id) then Failure(DuplicateCategory(id))
    else Success(categories + [(id, InnerText(n))])
  }

  /** One round of the loop over the children of `<database>` in `ObjectDb.FromXml`. */
  function RootStep(db: Database, n: Node): Result<Database, DecodeError> {
    if IsTag(n, "categories") then
      var categories :- FoldNodes(CategoryStep, db.categories, n.children);
      Success(db.(categories := categories))
    else if IsTag(n, "object") then
      var entry :- ParseEntry(n.children);
      var id :- TextAttribute(n, "id");
      if HasKey(db.entries, id) then Failure(DuplicateEntry(id))
      else Success(db.(entries := db.entries + [(id, entry)], idToModel := IndexEntry(db.idToModel, id, entry)))
    else Success(db)
  }

  /** An empty `ObjectDb`. */
  const EmptyDatabase: Database := Database(0, [], [], map[])

  /** `ObjectDb.FromXml` on the loaded document element `root`. */
  function Decode(root: Node): Result<Database, DecodeError> {
    if !IsTag(root, "database") then Failure(NoDatabaseRoot)
    else
      var timestamp :- IntAttribute(root, "timestamp");
      FoldNodes(RootStep, EmptyDatabase.(timestamp := timestamp), root.children)
  }

  // ---------------------------------------------------------------- encoding

  /** `ObjectDbField.WriteXml`: the five attributes on an empty `<field>`. */
  function FieldXml(f: ObjectDbField): Node {
    EmptyElement("field", map[
      "id" := IntToString(f.id as int),
      "type" := f.fieldType,
      "name" := f.name,
      "values" := f.values,
      "notes" := f.notes])
  }

  /** The `foreach` over `Fields`: one `<field>` per field, in list order. */
  function FieldsXml(fields: seq<ObjectDbField>): (r: seq<Node>)
    ensures |r| == |fields|
    ensures forall i :: 0 <= i < |fields| ==> r[i] == FieldXml(fields[i])
  {
    if fields == [] then [] else [FieldXml(fields[0])] + FieldsXml(fields[1..])
  }

  /** The seven fixed children `ObjectDbEntry.WriteXml` writes before the fields; null text writes as "". */
  function EntryHeaderXml(e: ObjectDbEntry): seq<Node> {
    [ TextElement("name", map[], e.name.GetOr("")),
      TextElement("type", map[], e.entryType),
      TextElement("model", map[], e.model),
      EmptyElement("flags", map["known" := IntToString(e.known as int), "complete" := IntToString(e.complete as int)]),
      EmptyElement("category", map["id" := IntToString(e.category as int)]),
      TextElement("notes", map[], e.notes.GetOr("")),
      TextElement("files", map[], e.files.GetOr("")) ]
  }

  /** The children `ObjectDbEntry.WriteXml` writes inside `<object>`. */
  function EntryXml(e: ObjectDbEntry): seq<Node> {
    EntryHeaderXml(e) + FieldsXml(e.fields)
  }

  function CategoryXml(c: (int32, string)): Node {
    TextElement("category", map["id" := IntToString(c.0 as int)], c.1)
  }

  function CategoriesXml(categories: seq<(int32, string)>): seq<Node> {
    if categories == [] then [] else [CategoryXml(categories[0])] + CategoriesXml(categories[1..])
  }

  function ObjectXml(entry: (string, ObjectDbEntry)): Node {
    Element("object", map["id" := entry.0], EntryXml(entry.1))
  }

  function ObjectsXml(entries: seq<(string, ObjectDbEntry)>): seq<Node> {
    if entries == [] then [] else [ObjectXml(entries[0])] + ObjectsXml(entries[1..])
  }

  /** The document `GetXmlBytes` writes for `db` (after any timestamp refresh). */
  function Encode(db: Database): Node {
    Element("database", map["timestamp" := IntToString(db.timestamp as int)],
      [Element("categories", map[], CategoriesXml(db.categories))] + ObjectsXml(db.entries))
  }
}
