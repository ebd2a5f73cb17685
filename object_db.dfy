/**
 * `ObjectDb` as the editor holds it: an object whose dictionaries `FromXml`
 * fills one child node at a time and whose `GetXmlBytes` refreshes the
 * timestamp and writes the document. Each loop is proved to compute the
 * reading (`Decode`, `ParseEntry`) or writing (`Encode`, `EntryXml`) function
 * of the codec, about which the round-trip and consistency lemmas are proved.
 */
module ObjectDatabase {
  import opened Wrappers
  import opened DotNetText
  import opened XmlTree
  import opened ObjectDbCodec
  import opened ObjectDbProperties

  /** `ObjectDbEntry.FromXml`: the `foreach` over the child nodes with its tag `switch`. */
  method EntryFromXml(nodes: seq<Node>) returns (r: Result<ObjectDbEntry, DecodeError>)
    ensures r == ParseEntry(nodes)
  {
    var res := NewEntry;
    for i := 0 to |nodes|
      invariant FoldNodes(EntryStep, res, nodes[i..]) == ParseEntry(nodes)
    {
      var n := nodes[i];
      var next := EntryStep(res, n);
      if next.Failure? {
        FoldFails(EntryStep, res, nodes[i..], next.error);
        return Failure(next.error);
      }
      FoldCons(EntryStep, res, nodes[i..], next.value);
      assert nodes[i..][1..] == nodes[i + 1..];
      res := next.value;
    }
    return Success(res);
  }

  lemma FieldsXmlSnoc(fields: seq<ObjectDbField>, i: nat)
    requires i < |fields|
    ensures FieldsXml(fields[..i + 1]) == FieldsXml(fields[..i]) + [FieldXml(fields[i])]
  {
    FieldsXmlAppend(fields[..i], [fields[i]]);
    assert fields[..i + 1] == fields[..i] + [fields[i]];
  }

  /** `ObjectDbEntry.WriteXml`: the seven fixed children, then one `<field>` per field in order. */
  method WriteEntryXml(e: ObjectDbEntry) returns (children: seq<Node>)
    ensures children == EntryXml(e)
  {
    children := EntryHeaderXml(e);
    for i := 0 to |e.fields|
      invariant children == EntryHeaderXml(e) + FieldsXml(e.fields[..i])
    {
      FieldsXmlSnoc(e.fields, i);
      children := children + [FieldXml(e.fields[i])];
    }
    assert e.fields[..|e.fields|] == e.fields;
  }

  lemma CategoriesXmlSnoc(categories: seq<(int32, string)>, i: nat)
    requires i < |categories|
    ensures CategoriesXml(categories[..i + 1]) == CategoriesXml(categories[..i]) + [CategoryXml(categories[i])]
  {
    CategoriesXmlAppend(categories[..i], [categories[i]]);
    assert categories[..i + 1] == categories[..i] + [categories[i]];
  }

  lemma ObjectsXmlSnoc(entries: seq<(string, ObjectDbEntry)>, i: nat)
    requires i < |entries|
    ensures ObjectsXml(entries[..i + 1]) == ObjectsXml(entries[..i]) + [ObjectXml(entries[i])]
  {
    var e := entries[i];
    calc {
      ObjectsXml(entries[..i + 1]);
      { assert entries[..i + 1] == entries[..i] + [e]; }
      ObjectsXml(entries[..i] + [e]);
      { ObjectsXmlAppend(entries[..i], [e]); }
      ObjectsXml(entries[..i]) + ObjectsXml([e]);
      { assert [e][1..] == []; }
      ObjectsXml(entries[..i]) + [ObjectXml(e)];
    }
  }

  /** The loop of `GetXmlBytes` over `Categories`: one `<category id=...>` with the name as text per category. */
  method WriteCategoriesXml(categories: seq<(int32, string)>) returns (nodes: seq<Node>)
    ensures nodes == CategoriesXml(categories)
  {
    nodes := [];
    for i := 0 to |categories|
      invariant nodes == CategoriesXml(categories[..i])
    {
      CategoriesXmlSnoc(categories, i);
      var c := categories[i];
      nodes := nodes + [TextElement("category", map["id" := IntToString(c.0 as int)], c.1)];
    }
    assert categories[..|categories|] == categories;
  }

  /** The loop of `GetXmlBytes` over `Entries`: one `<object id=...>` holding what the entry writes. */
  method WriteObjectsXml(entries: seq<(string, ObjectDbEntry)>) returns (nodes: seq<Node>)
    ensures nodes == ObjectsXml(entries)
  {
    nodes := [];
    for i := 0 to |entries|
      invariant nodes == ObjectsXml(entries[..i])
    {
      ObjectsXmlSnoc(entries, i);
      var inner := WriteEntryXml(entries[i].1);
      nodes := nodes + [Element("object", map["id" := entries[i].0], inner)];
    }
    assert entries[..|entries|] == entries;
  }

  /** `ObjectDb`: the three dictionaries, kept as lists in insertion order, and the timestamp. */
  class ObjectDb {
    var categories: seq<(int32, string)>
    var entries: seq<(string, ObjectDbEntry)>
    var idToModel: map<string, string>
    var timestamp: int32

    /** A new, empty database. */
    constructor ()
      ensures Value() == EmptyDatabase
    {
      categories := [];
      entries := [];
      idToModel := map[];
      timestamp := 0;
    }

    /** The state as a value. */
    function Value(): Database
      reads this
    {
      Database(timestamp, categories, entries, idToModel)
    }

    /**
     * `FromXml` on the document element `root`: a fresh database holding
     * exactly what `Decode` reads, or the exception `Decode` ends in.
     */
    static method FromXml(root: Node) returns (r: Result<ObjectDb, DecodeError>)
      ensures r.Success? <==> Decode(root).Success?
      ensures r.Success? ==> fresh(r.value) && r.value.Value() == Decode(root).value
      ensures r.Failure? ==> r.error == Decode(root).error
    {
      if !IsTag(root, "database") {
        return Failure(NoDatabaseRoot);
      }
      var stamp := IntAttribute(root, "timestamp");
      if stamp.Failure? {
        return Failure(stamp.error);
      }
      var res := new ObjectDb();
      res.timestamp := stamp.value;
      var nodes := root.children;
      for i := 0 to |nodes|
        invariant FoldNodes(RootStep, res.Value(), nodes[i..]) == Decode(root)
        invariant res.idToModel == ModelIndex(res.entries)
      {
        var node := nodes[i];
        ghost var before := res.Value();
        assert nodes[i..][1..] == nodes[i + 1..];
        if IsTag(node, "categories") {
          var subs := node.children;
          for k := 0 to |subs|
            invariant res.Value() == before.(categories := res.categories)
            invariant FoldNodes(CategoryStep, res.categories, subs[k..]) == FoldNodes(CategoryStep, before.categories, subs)
          {
            var added := CategoryStep(res.categories, subs[k]);
            if added.Failure? {
              FoldFails(CategoryStep, res.categories, subs[k..], added.error);
              FoldFails(RootStep, before, nodes[i..], added.error);
              return Failure(added.error);
            }
            FoldCons(CategoryStep, res.categories, subs[k..], added.value);
            assert subs[k..][1..] == subs[k + 1..];
            res.categories := added.value;
          }
        } else if IsTag(node, "object") {
          var tmp := EntryFromXml(node.children);
          if tmp.Failure? {
            FoldFails(RootStep, before, nodes[i..], tmp.error);
            return Failure(tmp.error);
          }
          var id := TextAttribute(node, "id");
          if id.Failure? {
            FoldFails(RootStep, before, nodes[i..], id.error);
            return Failure(id.error);
          }
          if HasKey(res.entries, id.value) {
            FoldFails(RootStep, before, nodes[i..], DuplicateEntry(id.value));
            return Failure(DuplicateEntry(id.value));
          }
          ghost var earlier := res.entries;
          res.entries := res.entries + [(id.value, tmp.value)];
          assert res.entries[..|res.entries| - 1] == earlier;
          if Trim(tmp.value.model) != "" {
            // `IdToModel.Add` cannot throw: only ids of earlier entries are indexed.
            assert id.value !in res.idToModel by {
              if id.value in res.idToModel {
                IndexedIdsAreEntries(earlier, id.value);
              }
            }
            res.idToModel := res.idToModel[id.value := tmp.value.model];
          }
        }
        FoldCons(RootStep, before, nodes[i..], res.Value());
      }
      return Success(res);
    }

    /**
     * `GetXmlBytes(updateTimestamp = true)`: with `updateTimestamp` the timestamp
     * becomes `now`, the seconds since 1970 the clock reports; then the
     * document `Encode` describes is written for the new state, categories
     * and objects in order. Nothing else changes.
     */
    method GetXmlBytes(now: int32, updateTimestamp: bool := true) returns (doc: Node)
      modifies this
      ensures timestamp == if updateTimestamp then now else old(timestamp)
      ensures categories == old(categories) && entries == old(entries) && idToModel == old(idToModel)
      ensures doc == Encode(Value())
    {
      if updateTimestamp {
        timestamp := now;
      }
      var cats := WriteCategoriesXml(categories);
      var objects := WriteObjectsXml(entries);
      var children := [Element("categories", map[], cats)] + objects;
      doc := Element("database", map["timestamp" := IntToString(timestamp as int)], children);
    }
  }

  /**
   * A database saved with `GetXmlBytes` and loaded back with `FromXml` holds
   * the same timestamp and categories, its entries with null text read as "",
   * and the model index rebuilt from those entries.
   */
  method SaveAndReload(db: ObjectDb, updateTimestamp: bool, now: int32) returns (loaded: Result<ObjectDb, DecodeError>)
    requires DistinctKeys(db.categories) && DistinctKeys(db.entries)
    modifies db
    ensures loaded.Success? && fresh(loaded.value)
    ensures loaded.value.Value() ==
      db.Value().(entries := Reloaded(db.entries), idToModel := ModelIndex(db.entries))
  {
    var doc := db.GetXmlBytes(now, updateTimestamp);
    RoundTrip(db.Value());
    loaded := ObjectDb.FromXml(doc);
  }
}
