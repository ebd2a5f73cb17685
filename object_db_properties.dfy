/**
 * What the object database codec guarantees: a saved database loads back
 * (with null text read as ""), a load keeps the dictionaries' key discipline
 * and the model index, and the entry reader's tag rules.
 */
module ObjectDbProperties {
  import opened Wrappers
  import opened DotNetText
  import opened XmlTree
  import opened ObjectDbCodec

  /** An entry as it reads back after a save: null `name`, `notes` and `files` come back as "". */
  function Normalized(e: ObjectDbEntry): ObjectDbEntry {
    e.(name := Some(e.name.GetOr("")), notes := Some(e.notes.GetOr("")), files := Some(e.files.GetOr("")))
  }

  /** The entry list as it reads back after a save. */
  function Reloaded(entries: seq<(string, ObjectDbEntry)>): (r: seq<(string, ObjectDbEntry)>)
    ensures |r| == |entries|
    ensures forall k :: 0 <= k < |entries| ==> r[k] == (entries[k].0, Normalized(entries[k].1))
  {
    seq(|entries|, k requires 0 <= k < |entries| => (entries[k].0, Normalized(entries[k].1)))
  }

  /** `ObjectDb`'s own invariant: keys are unique and `IdToModel` indexes the entries. */
  ghost predicate Consistent(db: Database) {
    && DistinctKeys(db.categories)
    && DistinctKeys(db.entries)
    && db.idToModel == ModelIndex(db.entries)
  }

  // ------------------------------------------------------------ the fold

  /** Reading two runs of nodes is reading the first, then the second from where it left off. */
  lemma {:induction false} FoldAppend<A>(step: (A, Node) -> Result<A, DecodeError>, acc: A, xs: seq<Node>, ys: seq<Node>)
    ensures FoldNodes(step, acc, xs + ys) ==
      match FoldNodes(step, acc, xs)
      case Success(mid) => FoldNodes(step, mid, ys)
      case Failure(err) => Failure(err)
  {
    if xs == [] {
      assert xs + ys == ys;
    } else {
      assert (xs + ys)[0] == xs[0];
      assert (xs + ys)[1..] == xs[1..] + ys;
      match step(acc, xs[0])
      case Success(next) => FoldAppend(step, next, xs[1..], ys);
      case Failure(_) =>
    }
  }

  /** A first run that reads through leaves the second run to go on from its result. */
  lemma FoldThen<A>(step: (A, Node) -> Result<A, DecodeError>, acc: A, xs: seq<Node>, ys: seq<Node>, mid: A)
    requires FoldNodes(step, acc, xs) == Success(mid)
    ensures FoldNodes(step, acc, xs + ys) == FoldNodes(step, mid, ys)
  {
    FoldAppend(step, acc, xs, ys);
  }

  /** A one-node run is one step. */
  lemma FoldOne<A>(step: (A, Node) -> Result<A, DecodeError>, acc: A, n: Node)
    ensures FoldNodes(step, acc, [n]) == step(acc, n)
  {
    assert [n][1..] == [];
  }

  /** A node every step passes over can be dropped from the run. */
  lemma FoldSkip<A>(step: (A, Node) -> Result<A, DecodeError>, acc: A, xs: seq<Node>, n: Node, ys: seq<Node>)
    requires forall a :: step(a, n) == Success(a)
    ensures FoldNodes(step, acc, xs + [n] + ys) == FoldNodes(step, acc, xs + ys)
  {
    assert xs + [n] + ys == xs + ([n] + ys);
    FoldAppend(step, acc, xs, [n] + ys);
    FoldAppend(step, acc, xs, ys);
    match FoldNodes(step, acc, xs)
    case Success(mid) =>
      assert ([n] + ys)[0] == n && ([n] + ys)[1..] == ys;
    case Failure(_) =>
  }

  /** A first step that throws ends the run with its exception. */
  lemma FoldFails<A>(step: (A, Node) -> Result<A, DecodeError>, acc: A, nodes: seq<Node>, err: DecodeError)
    requires nodes != [] && step(acc, nodes[0]) == Failure(err)
    ensures FoldNodes(step, acc, nodes) == Failure(err)
  {
  }

  /** The first step that throws ends the whole run with its exception. */
  lemma FoldStopsAtFailure<A>(step: (A, Node) -> Result<A, DecodeError>, acc: A, xs: seq<Node>, n: Node, ys: seq<Node>)
    requires FoldNodes(step, acc, xs).Success?
    requires step(FoldNodes(step, acc, xs).value, n).Failure?
    ensures FoldNodes(step, acc, xs + [n] + ys) == Failure(step(FoldNodes(step, acc, xs).value, n).error)
  {
    assert xs + [n] + ys == xs + ([n] + ys);
    FoldAppend(step, acc, xs, [n] + ys);
    FoldFails(step, FoldNodes(step, acc, xs).value, [n] + ys, step(FoldNodes(step, acc, xs).value, n).error);
  }

  // ------------------------------------------------------------ entries

  /** What each header child does to the entry being read. */
  lemma NameStep(e: ObjectDbEntry, s: string)
    ensures EntryStep(e, TextElement("name", map[], s)) == Success(e.(name := Some(s)))
  {
  }

  lemma TypeStep(e: ObjectDbEntry, s: string)
    ensures EntryStep(e, TextElement("type", map[], s)) == Success(e.(entryType := s))
  {
  }

  lemma ModelStep(e: ObjectDbEntry, s: string)
    ensures EntryStep(e, TextElement("model", map[], s)) == Success(e.(model := s))
  {
  }

  lemma NotesStep(e: ObjectDbEntry, s: string)
    ensures EntryStep(e, TextElement("notes", map[], s)) == Success(e.(notes := Some(s)))
  {
  }

  lemma FilesStep(e: ObjectDbEntry, s: string)
    ensures EntryStep(e, TextElement("files", map[], s)) == Success(e.(files := Some(s)))
  {
  }

  lemma FlagsStep(e: ObjectDbEntry, known: int32, complete: int32)
    ensures EntryStep(e, EmptyElement("flags", map["known" := IntToString(known as int), "complete" := IntToString(complete as int)]))
      == Success(e.(known := known, complete := complete))
  {
    ParseIntRoundTrip(known);
    ParseIntRoundTrip(complete);
  }

  lemma CategoryTagStep(e: ObjectDbEntry, category: int32)
    ensures EntryStep(e, EmptyElement("category", map["id" := IntToString(category as int)])) == Success(e.(category := category))
  {
    ParseIntRoundTrip(category);
  }

  /** `ObjectDbField.FromXml` after `WriteXml` gives the field back. */
  lemma FieldRoundTrip(f: ObjectDbField)
    ensures FieldFromXml(FieldXml(f)) == Success(f)
  {
    ParseIntRoundTrip(f.id);
  }

  lemma FieldStep(e: ObjectDbEntry, f: ObjectDbField)
    ensures EntryStep(e, FieldXml(f)) == Success(e.(fields := e.fields + [f]))
  {
    FieldRoundTrip(f);
  }

  /** One successful step, then the rest of the run. */
  lemma FoldCons<A>(step: (A, Node) -> Result<A, DecodeError>, acc: A, nodes: seq<Node>, next: A)
    requires nodes != [] && step(acc, nodes[0]) == Success(next)
    ensures FoldNodes(step, acc, nodes) == FoldNodes(step, next, nodes[1..])
  {
  }

  /** The seven fixed children read back into a new entry. */
  lemma HeaderRoundTrip(e: ObjectDbEntry)
    ensures FoldNodes(EntryStep, NewEntry, EntryHeaderXml(e)) == Success(Normalized(e).(fields := []))
  {
    var h := EntryHeaderXml(e);
    var e1 := NewEntry.(name := Some(e.name.GetOr("")));
    var e2 := e1.(entryType := e.entryType);
    var e3 := e2.(model := e.model);
    var e4 := e3.(known := e.known, complete := e.complete);
    var e5 := e4.(category := e.category);
    var e6 := e5.(notes := Some(e.notes.GetOr("")));
    var e7 := e6.(files := Some(e.files.GetOr("")));
    calc {
      FoldNodes(EntryStep, NewEntry, h);
      { NameStep(NewEntry, e.name.GetOr("")); FoldCons(EntryStep, NewEntry, h, e1); }
      FoldNodes(EntryStep, e1, h[1..]);
      { TypeStep(e1, e.entryType); FoldCons(EntryStep, e1, h[1..], e2); assert h[1..][1..] == h[2..]; }
      FoldNodes(EntryStep, e2, h[2..]);
      { ModelStep(e2, e.model); FoldCons(EntryStep, e2, h[2..], e3); assert h[2..][1..] == h[3..]; }
      FoldNodes(EntryStep, e3, h[3..]);
      { FlagsStep(e3, e.known, e.complete); FoldCons(EntryStep, e3, h[3..], e4); assert h[3..][1..] == h[4..]; }
      FoldNodes(EntryStep, e4, h[4..]);
      { CategoryTagStep(e4, e.category); FoldCons(EntryStep, e4, h[4..], e5); assert h[4..][1..] == h[5..]; }
      FoldNodes(EntryStep, e5, h[5..]);
      { NotesStep(e5, e.notes.GetOr("")); FoldCons(EntryStep, e5, h[5..], e6); assert h[5..][1..] == h[6..]; }
      FoldNodes(EntryStep, e6, h[6..]);
      { FilesStep(e6, e.files.GetOr("")); FoldCons(EntryStep, e6, h[6..], e7); assert h[6..][1..] == []; }
      FoldNodes(EntryStep, e7, []);
    }
  }

  /** The first written `<field>` is appended, and reading goes on. */
  lemma FieldsCons(e: ObjectDbEntry, fs: seq<ObjectDbField>)
    requires fs != []
    ensures FoldNodes(EntryStep, e, FieldsXml(fs)) == FoldNodes(EntryStep, e.(fields := e.fields + [fs[0]]), FieldsXml(fs[1..]))
  {
    FieldStep(e, fs[0]);
    FoldCons(EntryStep, e, FieldsXml(fs), e.(fields := e.fields + [fs[0]]));
  }

  /** The `<field>` children read back, appended in order. */
  lemma {:induction false} FieldsRoundTrip(e: ObjectDbEntry, fs: seq<ObjectDbField>)
    ensures FoldNodes(EntryStep, e, FieldsXml(fs)) == Success(e.(fields := e.fields + fs))
    decreases |fs|
  {
    if fs == [] {
      assert e.fields + fs == e.fields;
    } else {
      var e1 := e.(fields := e.fields + [fs[0]]);
      calc {
        FoldNodes(EntryStep, e, FieldsXml(fs));
        { FieldsCons(e, fs); }
        FoldNodes(EntryStep, e1, FieldsXml(fs[1..]));
        { FieldsRoundTrip(e1, fs[1..]); }
        Success(e1.(fields := e1.fields + fs[1..]));
        { assert e1.fields + fs[1..] == e.fields + fs; }
        Success(e.(fields := e.fields + fs));
      }
    }
  }

  /** `ObjectDbEntry.FromXml` after `WriteXml` gives the entry back, null text as "". */
  lemma EntryRoundTrip(e: ObjectDbEntry)
    ensures ParseEntry(EntryXml(e)) == Success(Normalized(e))
  {
    FoldAppend(EntryStep, NewEntry, EntryHeaderXml(e), FieldsXml(e.fields));
    HeaderRoundTrip(e);
    FieldsRoundTrip(Normalized(e).(fields := []), e.fields);
    assert [] + e.fields == e.fields;
  }

  /** The fields of every `<field>` child, in document order; fails where one would throw. */
  function FieldValues(nodes: seq<Node>): Result<seq<ObjectDbField>, DecodeError> {
    if nodes == [] then Success([])
    else if IsTag(nodes[0], "field") then
      var f :- FieldFromXml(nodes[0]);
      var rest :- FieldValues(nodes[1..]);
      Success([f] + rest)
    else FieldValues(nodes[1..])
  }

  /** What one child does to the entry's field list. */
  lemma EntryStepFields(e: ObjectDbEntry, n: Node)
    requires EntryStep(e, n).Success?
    ensures IsTag(n, "field") ==>
      FieldFromXml(n).Success? && EntryStep(e, n).value.fields == e.fields + [FieldFromXml(n).value]
    ensures !IsTag(n, "field") ==> EntryStep(e, n).value.fields == e.fields
  {
  }

  /** What one child adds to the `<field>` list. */
  lemma FieldValuesCons(nodes: seq<Node>)
    requires nodes != [] && FieldValues(nodes[1..]).Success?
    requires IsTag(nodes[0], "field") ==> FieldFromXml(nodes[0]).Success?
    ensures FieldValues(nodes) == Success(
      (if IsTag(nodes[0], "field") then [FieldFromXml(nodes[0]).value] else []) + FieldValues(nodes[1..]).value)
  {
    if !IsTag(nodes[0], "field") {
      assert [] + FieldValues(nodes[1..]).value == FieldValues(nodes[1..]).value;
    }
  }

  /** A read entry's fields are its `<field>` children, in document order. */
  lemma {:induction false} FieldsInDocumentOrder(e: ObjectDbEntry, nodes: seq<Node>)
    requires FoldNodes(EntryStep, e, nodes).Success?
    ensures FieldValues(nodes).Success?
    ensures FoldNodes(EntryStep, e, nodes).value.fields == e.fields + FieldValues(nodes).value
    decreases |nodes|
  {
    if nodes == [] {
      assert e.fields + [] == e.fields;
    } else {
      var e1 := EntryStep(e, nodes[0]).value;
      FoldCons(EntryStep, e, nodes, e1);
      EntryStepFields(e, nodes[0]);
      FieldsInDocumentOrder(e1, nodes[1..]);
      FieldValuesCons(nodes);
      var added := if IsTag(nodes[0], "field") then [FieldFromXml(nodes[0]).value] else [];
      assert e1.fields == e.fields + added;
      assert e1.fields + FieldValues(nodes[1..]).value == e.fields + (added + FieldValues(nodes[1..]).value);
    }
  }

  /** A node `ObjectDbEntry.FromXml` has a `case` for. */
  predicate EntryTag(n: Node) {
    || IsTag(n, "name") || IsTag(n, "type") || IsTag(n, "model") || IsTag(n, "flags")
    || IsTag(n, "category") || IsTag(n, "notes") || IsTag(n, "files") || IsTag(n, "field")
  }

  /** Text and any other tag inside `<object>` are passed over. */
  lemma UnknownTagsIgnored(xs: seq<Node>, n: Node, ys: seq<Node>)
    requires !EntryTag(n)
    ensures ParseEntry(xs + [n] + ys) == ParseEntry(xs + ys)
  {
    forall e: ObjectDbEntry
      ensures EntryStep(e, n) == Success(e)
    {
    }
    FoldSkip(EntryStep, NewEntry, xs, n, ys);
  }

  /**
   * `<flags>` needs integer `known` and `complete` attributes and `<category>`
   * an integer `id`; a missing one throws, and `FoldStopsAtFailure` carries
   * the exception out of the whole entry.
   */
  lemma HeaderAttributesRequired(e: ObjectDbEntry, n: Node)
    ensures IsTag(n, "flags") ==>
      (EntryStep(e, n).Success? <==>
        && "known" in n.attrs && ParseInt(n.attrs["known"]).Some?
        && "complete" in n.attrs && ParseInt(n.attrs["complete"]).Some?)
    ensures IsTag(n, "flags") && "known" !in n.attrs ==> EntryStep(e, n) == Failure(MissingAttribute("known"))
    ensures IsTag(n, "flags") && "known" in n.attrs && "complete" !in n.attrs ==>
      EntryStep(e, n) == Failure(
        if ParseInt(n.attrs["known"]).Some? then MissingAttribute("complete") else NotAnInteger(n.attrs["known"]))
    ensures IsTag(n, "category") ==>
      (EntryStep(e, n).Success? <==> "id" in n.attrs && ParseInt(n.attrs["id"]).Some?)
    ensures IsTag(n, "category") && "id" !in n.attrs ==> EntryStep(e, n) == Failure(MissingAttribute("id"))
  {
  }

  /** The text of the last `<tag>` child, or `None` when there is none. */
  function LastText(nodes: seq<Node>, tag: string): Option<string> {
    if nodes == [] then None
    else if IsTag(nodes[|nodes| - 1], tag) then Some(InnerText(nodes[|nodes| - 1]))
    else LastText(nodes[..|nodes| - 1], tag)
  }

  /** What one child does to the entry's five text fields. */
  lemma EntryStepText(e: ObjectDbEntry, n: Node)
    requires EntryStep(e, n).Success?
    ensures var r := EntryStep(e, n).value;
      && r.name == (if IsTag(n, "name") then Some(InnerText(n)) else e.name)
      && r.entryType == (if IsTag(n, "type") then InnerText(n) else e.entryType)
      && r.model == (if IsTag(n, "model") then InnerText(n) else e.model)
      && r.notes == (if IsTag(n, "notes") then Some(InnerText(n)) else e.notes)
      && r.files == (if IsTag(n, "files") then Some(InnerText(n)) else e.files)
  {
  }

  /** Reading a run of children leaves each text field at its last occurrence, or where it was. */
  lemma {:induction false} TextFieldsFromLast(e: ObjectDbEntry, nodes: seq<Node>)
    requires FoldNodes(EntryStep, e, nodes).Success?
    ensures var r := FoldNodes(EntryStep, e, nodes).value;
      && r.name == (if LastText(nodes, "name").Some? then LastText(nodes, "name") else e.name)
      && r.entryType == LastText(nodes, "type").GetOr(e.entryType)
      && r.model == LastText(nodes, "model").GetOr(e.model)
      && r.notes == (if LastText(nodes, "notes").Some? then LastText(nodes, "notes") else e.notes)
      && r.files == (if LastText(nodes, "files").Some? then LastText(nodes, "files") else e.files)
    decreases |nodes|
  {
    if nodes != [] {
      var init, last := nodes[..|nodes| - 1], nodes[|nodes| - 1];
      assert nodes == init + [last];
      FoldAppend(EntryStep, e, init, [last]);
      var mid := FoldNodes(EntryStep, e, init).value;
      FoldOne(EntryStep, mid, last);
      TextFieldsFromLast(e, init);
      EntryStepText(mid, last);
    }
  }

  /**
   * A read entry's `name`, `type`, `model`, `notes` and `files` are the text
   * of the last such child, wherever it stands; an absent one keeps its
   * initial value (null, or "" for `type` and `model`).
   */
  lemma LastOccurrenceWins(nodes: seq<Node>)
    requires ParseEntry(nodes).Success?
    ensures var r := ParseEntry(nodes).value;
      && r.name == LastText(nodes, "name")
      && r.entryType == LastText(nodes, "type").GetOr("")
      && r.model == LastText(nodes, "model").GetOr("")
      && r.notes == LastText(nodes, "notes")
      && r.files == LastText(nodes, "files")
  {
    TextFieldsFromLast(NewEntry, nodes);
  }

  /** `<name>a</name><name>b</name><model>m</model>` reads name "b" and model "m". */
  lemma LastOccurrenceExample()
    ensures var nodes := [TextElement("name", map[], "a"), TextElement("name", map[], "b"), TextElement("model", map[], "m")];
      ParseEntry(nodes) == Success(NewEntry.(name := Some("b"), model := "m"))
  {
  }

  /** `ObjectDbField.FromXml` succeeds exactly on an element with all five attributes and an integer id. */
  lemma FieldAttributesRequired(n: Node)
    ensures FieldFromXml(n).Success? <==>
      && n.Element?
      && "id" in n.attrs && "type" in n.attrs && "name" in n.attrs && "values" in n.attrs && "notes" in n.attrs
      && ParseInt(n.attrs["id"]).Some?
    ensures n.Element? && "id" !in n.attrs ==> FieldFromXml(n) == Failure(MissingAttribute("id"))
  {
  }

  // ------------------------------------------------------------ keys and the model index

  lemma DistinctAppend<K, V>(list: seq<(K, V)>, k: K, v: V)
    requires DistinctKeys(list) && !HasKey(list, k)
    ensures DistinctKeys(list + [(k, v)])
  {
    var l := list + [(k, v)];
    forall i, j | 0 <= i < j < |l|
      ensures l[i].0 != l[j].0
    {
      if j == |list| {
        assert l[i] == list[i];
      } else {
        assert l[i] == list[i] && l[j] == list[j];
      }
    }
  }

  /** Some entry with id `id` has a non-blank model. */
  ghost predicate Indexable(es: seq<(string, ObjectDbEntry)>, id: string) {
    exists j :: 0 <= j < |es| && es[j].0 == id && Trim(es[j].1.model) != ""
  }

  lemma IndexableSnoc(es: seq<(string, ObjectDbEntry)>, id: string)
    requires es != []
    ensures var last := es[|es| - 1];
      Indexable(es, id) <==> Indexable(es[..|es| - 1], id) || (last.0 == id && Trim(last.1.model) != "")
  {
    var p := es[..|es| - 1];
    if Indexable(p, id) {
      var j :| 0 <= j < |p| && p[j].0 == id && Trim(p[j].1.model) != "";
      assert es[j] == p[j];
    }
    if Indexable(es, id) {
      var j :| 0 <= j < |es| && es[j].0 == id && Trim(es[j].1.model) != "";
      if j < |p| {
        assert p[j] == es[j];
      }
    }
  }

  /** An id is in the model index exactly when some entry with that id has a non-blank model. */
  lemma {:induction false} ModelIndexDomain(es: seq<(string, ObjectDbEntry)>, id: string)
    ensures id in ModelIndex(es) <==> Indexable(es, id)
  {
    if es != [] {
      ModelIndexDomain(es[..|es| - 1], id);
      IndexableSnoc(es, id);
    }
  }

  /**
   * With unique ids, an entry is indexed exactly when its model is not blank,
   * and then under its own model.
   */
  lemma {:induction false} ModelIndexValue(es: seq<(string, ObjectDbEntry)>, j: nat)
    requires DistinctKeys(es) && j < |es|
    ensures es[j].0 in ModelIndex(es) <==> Trim(es[j].1.model) != ""
    ensures es[j].0 in ModelIndex(es) ==> ModelIndex(es)[es[j].0] == es[j].1.model
  {
    var p := es[..|es| - 1];
    var last := es[|es| - 1];
    if j == |es| - 1 {
      ModelIndexDomain(p, last.0);
      forall i | 0 <= i < |p|
        ensures p[i].0 != last.0
      {
        assert p[i] == es[i];
      }
    } else {
      assert p[j] == es[j];
      ModelIndexValue(p, j);
    }
  }

  /** `IdToModel.Add` never meets a key twice: only ids of earlier entries are indexed. */
  lemma IndexedIdsAreEntries(es: seq<(string, ObjectDbEntry)>, id: string)
    requires id in ModelIndex(es)
    ensures HasKey(es, id)
  {
    ModelIndexDomain(es, id);
  }

  lemma {:induction false} ModelIndexReloaded(es: seq<(string, ObjectDbEntry)>)
    ensures ModelIndex(Reloaded(es)) == ModelIndex(es)
  {
    if es != [] {
      var p := es[..|es| - 1];
      assert Reloaded(es)[..|es| - 1] == Reloaded(p);
      ModelIndexReloaded(p);
    }
  }

  // ------------------------------------------------------------ the database

  /** One `<category>` child as `GetXmlBytes` writes it. */
  lemma CategoryXmlStep(cats: seq<(int32, string)>, c: (int32, string))
    ensures CategoryStep(cats, CategoryXml(c)) ==
      if HasKey(cats, c.0) then Failure(DuplicateCategory(c.0)) else Success(cats + [c])
  {
    ParseIntRoundTrip(c.0);
  }

  /** One `<object>` child as `GetXmlBytes` writes it. */
  lemma ObjectStep(db: Database, entry: (string, ObjectDbEntry))
    ensures RootStep(db, ObjectXml(entry)) ==
      if HasKey(db.entries, entry.0) then Failure(DuplicateEntry(entry.0))
      else
        var e := Normalized(entry.1);
        Success(db.(entries := db.entries + [(entry.0, e)], idToModel := IndexEntry(db.idToModel, entry.0, e)))
  {
    EntryRoundTrip(entry.1);
  }

  /** The written document: the timestamp reads back, then `<categories>`, then the objects. */
  lemma EncodedDocumentSteps(db: Database)
    ensures Decode(Encode(db)) ==
      match FoldNodes(CategoryStep, [], CategoriesXml(db.categories))
      case Success(cs) => FoldNodes(RootStep, EmptyDatabase.(timestamp := db.timestamp, categories := cs), ObjectsXml(db.entries))
      case Failure(err) => Failure(err)
  {
    ParseIntRoundTrip(db.timestamp);
    var start := EmptyDatabase.(timestamp := db.timestamp);
    var catsNode := Element("categories", map[], CategoriesXml(db.categories));
    assert Decode(Encode(db)) == FoldNodes(RootStep, start, [catsNode] + ObjectsXml(db.entries));
    FoldAppend(RootStep, start, [catsNode], ObjectsXml(db.entries));
    FoldOne(RootStep, start, catsNode);
  }

  /** Unique keys split at any point: the first key of the rest is not among those before it. */
  lemma DistinctSplit<K, V>(done: seq<(K, V)>, rest: seq<(K, V)>)
    requires rest != [] && DistinctKeys(done + rest)
    ensures !HasKey(done, rest[0].0)
    ensures (done + [rest[0]]) + rest[1..] == done + rest
  {
    forall j | 0 <= j < |done|
      ensures done[j].0 != rest[0].0
    {
      assert (done + rest)[j] == done[j];
      assert (done + rest)[|done|] == rest[0];
    }
    assert (done + [rest[0]]) + rest[1..] == done + rest;
  }

  /** The first written `<category>` with a new id is added, and reading goes on. */
  lemma CategoriesCons(done: seq<(int32, string)>, rest: seq<(int32, string)>)
    requires rest != [] && !HasKey(done, rest[0].0)
    ensures FoldNodes(CategoryStep, done, CategoriesXml(rest)) == FoldNodes(CategoryStep, done + [rest[0]], CategoriesXml(rest[1..]))
  {
    var xs := CategoriesXml(rest);
    CategoryXmlStep(done, rest[0]);
    FoldCons(CategoryStep, done, xs, done + [rest[0]]);
  }

  /** `<categories>` children read back in order, given unique ids. */
  lemma {:induction false} CategoriesRoundTrip(done: seq<(int32, string)>, rest: seq<(int32, string)>)
    requires DistinctKeys(done + rest)
    ensures FoldNodes(CategoryStep, done, CategoriesXml(rest)) == Success(done + rest)
    decreases |rest|
  {
    if rest == [] {
      assert done + rest == done;
    } else {
      DistinctSplit(done, rest);
      CategoriesCons(done, rest);
      CategoriesRoundTrip(done + [rest[0]], rest[1..]);
    }
  }

  lemma ReloadedTail(es: seq<(string, ObjectDbEntry)>)
    requires es != []
    ensures Reloaded(es)[0] == (es[0].0, Normalized(es[0].1))
    ensures Reloaded(es)[1..] == Reloaded(es[1..])
  {
  }

  /** The first written `<object>` with a new id is added and indexed, and reading goes on. */
  lemma ObjectsCons(db: Database, rest: seq<(string, ObjectDbEntry)>)
    requires rest != [] && !HasKey(db.entries, rest[0].0)
    ensures var e := Normalized(rest[0].1);
      FoldNodes(RootStep, db, ObjectsXml(rest)) ==
      FoldNodes(RootStep, db.(entries := db.entries + [(rest[0].0, e)], idToModel := IndexEntry(db.idToModel, rest[0].0, e)),
        ObjectsXml(rest[1..]))
  {
    var xs := ObjectsXml(rest);
    ObjectStep(db, rest[0]);
    var e := Normalized(rest[0].1);
    FoldCons(RootStep, db, xs, db.(entries := db.entries + [(rest[0].0, e)], idToModel := IndexEntry(db.idToModel, rest[0].0, e)));
  }

  /** `<object>` children read back in order, given unique ids. */
  lemma {:induction false} ObjectsRoundTrip(db: Database, rest: seq<(string, ObjectDbEntry)>)
    requires DistinctKeys(db.entries + Reloaded(rest))
    requires db.idToModel == ModelIndex(db.entries)
    ensures FoldNodes(RootStep, db, ObjectsXml(rest)) ==
      Success(db.(entries := db.entries + Reloaded(rest), idToModel := ModelIndex(db.entries + Reloaded(rest))))
    decreases |rest|
  {
    if rest == [] {
      assert db.entries + Reloaded(rest) == db.entries;
    } else {
      ReloadedTail(rest);
      DistinctSplit(db.entries, Reloaded(rest));
      ObjectsCons(db, rest);
      var entry := (rest[0].0, Normalized(rest[0].1));
      var db1 := db.(entries := db.entries + [entry], idToModel := IndexEntry(db.idToModel, entry.0, entry.1));
      assert db1.entries[..|db1.entries| - 1] == db.entries;
      ObjectsRoundTrip(db1, rest[1..]);
    }
  }

  /** Same ids in the same places. */
  lemma ReloadedKeepsKeys(es: seq<(string, ObjectDbEntry)>)
    requires DistinctKeys(es)
    ensures DistinctKeys(Reloaded(es))
  {
    var r := Reloaded(es);
    forall i, j | 0 <= i < j < |r|
      ensures r[i].0 != r[j].0
    {
      assert r[i].0 == es[i].0 && r[j].0 == es[j].0;
    }
  }

  /**
   * Loading what `GetXmlBytes` wrote gives the database back: the same
   * timestamp and categories, the entries in order with null text read as "",
   * and `IdToModel` rebuilt from the entries.
   */
  lemma RoundTrip(db: Database)
    requires DistinctKeys(db.categories) && DistinctKeys(db.entries)
    ensures Decode(Encode(db)) == Success(db.(entries := Reloaded(db.entries), idToModel := ModelIndex(db.entries)))
  {
    EncodedDocumentSteps(db);
    assert [] + db.categories == db.categories;
    CategoriesRoundTrip([], db.categories);
    var db1 := EmptyDatabase.(timestamp := db.timestamp, categories := db.categories);
    ReloadedKeepsKeys(db.entries);
    assert db1.entries + Reloaded(db.entries) == Reloaded(db.entries);
    ObjectsRoundTrip(db1, db.entries);
    ModelIndexReloaded(db.entries);
  }

  lemma ReloadedIdempotent(es: seq<(string, ObjectDbEntry)>)
    ensures Reloaded(Reloaded(es)) == Reloaded(es)
  {
  }

  /** A second save and load changes nothing: the first one already normalised the entries. */
  lemma SecondRoundTripIsIdentity(db: Database)
    requires DistinctKeys(db.categories) && DistinctKeys(db.entries)
    ensures Decode(Encode(db)).Success?
    ensures var once := Decode(Encode(db)).value; Decode(Encode(once)) == Success(once)
  {
    RoundTrip(db);
    var once := db.(entries := Reloaded(db.entries), idToModel := ModelIndex(db.entries));
    ReloadedKeepsKeys(db.entries);
    RoundTrip(once);
    ReloadedIdempotent(db.entries);
    ModelIndexReloaded(db.entries);
  }

  lemma {:induction false} CategoriesStayDistinct(cats: seq<(int32, string)>, nodes: seq<Node>)
    requires DistinctKeys(cats)
    requires FoldNodes(CategoryStep, cats, nodes).Success?
    ensures DistinctKeys(FoldNodes(CategoryStep, cats, nodes).value)
    decreases |nodes|
  {
    if nodes != [] {
      var id := IntAttribute(nodes[0], "id").value;
      var next := cats + [(id, InnerText(nodes[0]))];
      assert CategoryStep(cats, nodes[0]) == Success(next);
      FoldCons(CategoryStep, cats, nodes, next);
      DistinctAppend(cats, id, InnerText(nodes[0]));
      CategoriesStayDistinct(next, nodes[1..]);
    }
  }

  /** One child of `<database>` keeps the database consistent and its timestamp. */
  lemma RootStepConsistent(db: Database, n: Node)
    requires Consistent(db)
    requires RootStep(db, n).Success?
    ensures Consistent(RootStep(db, n).value)
    ensures RootStep(db, n).value.timestamp == db.timestamp
  {
    var db1 := RootStep(db, n).value;
    if IsTag(n, "categories") {
      CategoriesStayDistinct(db.categories, n.children);
    } else if IsTag(n, "object") {
      var entry := ParseEntry(n.children).value;
      var id := TextAttribute(n, "id").value;
      DistinctAppend(db.entries, id, entry);
      assert db1.entries[..|db1.entries| - 1] == db.entries;
    }
  }

  /** Each child of `<database>` keeps the database consistent and its timestamp. */
  lemma {:induction false} RootStaysConsistent(db: Database, nodes: seq<Node>)
    requires Consistent(db)
    requires FoldNodes(RootStep, db, nodes).Success?
    ensures Consistent(FoldNodes(RootStep, db, nodes).value)
    ensures FoldNodes(RootStep, db, nodes).value.timestamp == db.timestamp
    decreases |nodes|
  {
    if nodes != [] {
      var db1 := RootStep(db, nodes[0]).value;
      FoldCons(RootStep, db, nodes, db1);
      RootStepConsistent(db, nodes[0]);
      RootStaysConsistent(db1, nodes[1..]);
    }
  }

  /** Whatever document loads, the result has unique keys and `IdToModel` indexes its entries. */
  lemma DecodeConsistent(root: Node)
    requires Decode(root).Success?
    ensures Consistent(Decode(root).value)
    ensures IsTag(root, "database") && "timestamp" in root.attrs
    ensures Decode(root).value.timestamp == ParseInt(root.attrs["timestamp"]).value
  {
    var start := EmptyDatabase.(timestamp := IntAttribute(root, "timestamp").value);
    assert Decode(root) == FoldNodes(RootStep, start, root.children);
    RootStaysConsistent(start, root.children);
  }

  // ------------------------------------------------------------ ids in document order

  /** The keys of an association list, in order. */
  function Keys<K, V>(list: seq<(K, V)>): (ks: seq<K>)
    ensures |ks| == |list|
    ensures forall k :: 0 <= k < |list| ==> ks[k] == list[k].0
  {
    seq(|list|, k requires 0 <= k < |list| => list[k].0)
  }

  /** No value occurs twice. */
  ghost predicate NoRepeats<T>(s: seq<T>) {
    forall i, j :: 0 <= i < j < |s| ==> s[i] != s[j]
  }

  /** The `id` a child of `<database>` gives an entry: that of an `<object>` element. */
  function ObjectIdOf(n: Node): seq<string> {
    if IsTag(n, "object") && "id" in n.attrs then [n.attrs["id"]] else []
  }

  /** The ids `idsOf` gives each node, in document order. */
  function ConcatIds<K>(idsOf: Node -> seq<K>, nodes: seq<Node>): seq<K> {
    if nodes == [] then [] else idsOf(nodes[0]) + ConcatIds(idsOf, nodes[1..])
  }

  /** The `id` of every `<object>` child of `<database>`, in document order. */
  function ObjectIds(nodes: seq<Node>): seq<string> {
    ConcatIds(ObjectIdOf, nodes)
  }

  /** The integer `id` a child of `<categories>` gives its category. */
  function CategoryIdOf(n: Node): seq<int32> {
    var id := IntAttribute(n, "id");
    if id.Success? then [id.value] else []
  }

  /** The integer `id` of every child of one `<categories>`, in document order. */
  function CategoryChildIds(subs: seq<Node>): seq<int32> {
    ConcatIds(CategoryIdOf, subs)
  }

  /** The category ids a child of `<database>` holds: those of a `<categories>` element. */
  function CategoryIdsOf(n: Node): seq<int32> {
    if IsTag(n, "categories") then CategoryChildIds(n.children) else []
  }

  /** The `id` of every category under every `<categories>` child of `<database>`, in document order. */
  function CategoryIds(nodes: seq<Node>): seq<int32> {
    ConcatIds(CategoryIdsOf, nodes)
  }

  /**
   * A run of steps each of which appends `idsOf(n)` to the keys `keysOf`
   * reads off the accumulator appends the ids of all the nodes, in order.
   */
  lemma {:induction false} FoldKeys<A, K>(step: (A, Node) -> Result<A, DecodeError>, keysOf: A -> seq<K>,
                                          idsOf: Node -> seq<K>, acc: A, nodes: seq<Node>)
    requires FoldNodes(step, acc, nodes).Success?
    requires forall a, n :: step(a, n).Success? ==> keysOf(step(a, n).value) == keysOf(a) + idsOf(n)
    ensures keysOf(FoldNodes(step, acc, nodes).value) == keysOf(acc) + ConcatIds(idsOf, nodes)
    decreases |nodes|
  {
    if nodes == [] {
      assert keysOf(acc) + [] == keysOf(acc);
    } else {
      var next := step(acc, nodes[0]).value;
      FoldCons(step, acc, nodes, next);
      FoldKeys(step, keysOf, idsOf, next, nodes[1..]);
      assert keysOf(acc) + idsOf(nodes[0]) + ConcatIds(idsOf, nodes[1..]) == keysOf(acc) + ConcatIds(idsOf, nodes);
    }
  }

  lemma KeysSnoc<K, V>(list: seq<(K, V)>, k: K, v: V)
    ensures Keys(list + [(k, v)]) == Keys(list) + [k]
  {
  }

  lemma DistinctKeysNoRepeats<K, V>(list: seq<(K, V)>)
    requires DistinctKeys(list)
    ensures NoRepeats(Keys(list))
  {
  }

  /** One child of `<categories>` adds its id to the keys, if it has one. */
  lemma CategoryStepKeys(cats: seq<(int32, string)>, n: Node)
    requires CategoryStep(cats, n).Success?
    ensures Keys(CategoryStep(cats, n).value) == Keys(cats) + CategoryIdOf(n)
  {
    KeysSnoc(cats, IntAttribute(n, "id").value, InnerText(n));
  }

  /** Reading the children of one `<categories>` adds their ids to the keys, in order. */
  lemma CategoryKeysInOrder(cats: seq<(int32, string)>, subs: seq<Node>)
    requires FoldNodes(CategoryStep, cats, subs).Success?
    ensures Keys(FoldNodes(CategoryStep, cats, subs).value) == Keys(cats) + CategoryChildIds(subs)
  {
    forall c, n | CategoryStep(c, n).Success?
      ensures Keys(CategoryStep(c, n).value) == Keys(c) + CategoryIdOf(n)
    {
      CategoryStepKeys(c, n);
    }
    FoldKeys(CategoryStep, Keys, CategoryIdOf, cats, subs);
  }

  /** What one child of `<database>` adds to the keys of the two dictionaries. */
  lemma RootStepKeys(db: Database, n: Node)
    requires RootStep(db, n).Success?
    ensures Keys(RootStep(db, n).value.entries) == Keys(db.entries) + ObjectIdOf(n)
    ensures Keys(RootStep(db, n).value.categories) == Keys(db.categories) + CategoryIdsOf(n)
  {
    var db1 := RootStep(db, n).value;
    if IsTag(n, "categories") {
      CategoryKeysInOrder(db.categories, n.children);
      assert Keys(db.entries) + [] == Keys(db.entries);
    } else if IsTag(n, "object") {
      KeysSnoc(db.entries, TextAttribute(n, "id").value, ParseEntry(n.children).value);
      assert Keys(db.categories) + [] == Keys(db.categories);
    } else {
      assert Keys(db.entries) + [] == Keys(db.entries);
      assert Keys(db.categories) + [] == Keys(db.categories);
    }
  }

  /** Reading children of `<database>` adds the ids of its `<object>` children to the entry keys, in order. */
  lemma RootEntryKeysInOrder(db: Database, nodes: seq<Node>)
    requires FoldNodes(RootStep, db, nodes).Success?
    ensures Keys(FoldNodes(RootStep, db, nodes).value.entries) == Keys(db.entries) + ObjectIds(nodes)
  {
    forall d, n | RootStep(d, n).Success?
      ensures Keys(RootStep(d, n).value.entries) == Keys(d.entries) + ObjectIdOf(n)
    {
      RootStepKeys(d, n);
    }
    FoldKeys(RootStep, (d: Database) => Keys(d.entries), ObjectIdOf, db, nodes);
  }

  /** Reading children of `<database>` adds the ids under its `<categories>` children to the category keys, in order. */
  lemma RootCategoryKeysInOrder(db: Database, nodes: seq<Node>)
    requires FoldNodes(RootStep, db, nodes).Success?
    ensures Keys(FoldNodes(RootStep, db, nodes).value.categories) == Keys(db.categories) + CategoryIds(nodes)
  {
    forall d, n | RootStep(d, n).Success?
      ensures Keys(RootStep(d, n).value.categories) == Keys(d.categories) + CategoryIdsOf(n)
    {
      RootStepKeys(d, n);
    }
    FoldKeys(RootStep, (d: Database) => Keys(d.categories), CategoryIdsOf, db, nodes);
  }

  /**
   * Whatever document loads, the entries are keyed by the ids of its
   * `<object>` children and the categories by the ids under all its
   * `<categories>` children, each in document order, so neither list of ids
   * repeats: a document that repeats an id anywhere throws.
   */
  lemma DecodeKeepsDocumentIds(root: Node)
    requires Decode(root).Success?
    ensures Keys(Decode(root).value.entries) == ObjectIds(root.children)
    ensures Keys(Decode(root).value.categories) == CategoryIds(root.children)
    ensures NoRepeats(ObjectIds(root.children)) && NoRepeats(CategoryIds(root.children))
  {
    var start := EmptyDatabase.(timestamp := IntAttribute(root, "timestamp").value);
    assert Decode(root) == FoldNodes(RootStep, start, root.children);
    RootEntryKeysInOrder(start, root.children);
    RootCategoryKeysInOrder(start, root.children);
    assert Keys(start.entries) == [] && Keys(start.categories) == [];
    DecodeConsistent(root);
    DistinctKeysNoRepeats(Decode(root).value.entries);
    DistinctKeysNoRepeats(Decode(root).value.categories);
  }

  /** A document whose object ids repeat, wherever the objects stand, does not load. */
  lemma RepeatedObjectIdRejected(root: Node, i: nat, j: nat)
    requires root.Element? && i < j < |ObjectIds(root.children)| && ObjectIds(root.children)[i] == ObjectIds(root.children)[j]
    ensures Decode(root).Failure?
  {
    if Decode(root).Success? {
      DecodeKeepsDocumentIds(root);
    }
  }

  /** A document whose category ids repeat, within one `<categories>` or across several, does not load. */
  lemma RepeatedCategoryIdRejected(root: Node, i: nat, j: nat)
    requires root.Element? && i < j < |CategoryIds(root.children)| && CategoryIds(root.children)[i] == CategoryIds(root.children)[j]
    ensures Decode(root).Failure?
  {
    if Decode(root).Success? {
      DecodeKeepsDocumentIds(root);
    }
  }

  /** `<database timestamp="1"><object id="a"/><object id="a"/></database>` throws on the second `Entries.Add`. */
  lemma BareDuplicateObjectRejected()
    ensures Decode(Element("database", map["timestamp" := "1"],
      [Element("object", map["id" := "a"], []), Element("object", map["id" := "a"], [])])) == Failure(DuplicateEntry("a"))
  {
    var o := Element("object", map["id" := "a"], []);
    var root := Element("database", map["timestamp" := "1"], [o, o]);
    ParseIntRoundTrip(1);
    assert IntToString(1) == "1";
    var db0 := EmptyDatabase.(timestamp := 1);
    var db1 := db0.(entries := [("a", NewEntry)], idToModel := IndexEntry(map[], "a", NewEntry));
    assert ParseEntry(o.children) == Success(NewEntry);
    assert db0.entries + [("a", NewEntry)] == db1.entries;
    assert RootStep(db0, o) == Success(db1);
    assert db1.entries[0].0 == "a";
    calc {
      Decode(root);
      FoldNodes(RootStep, db0, [o, o]);
      { FoldCons(RootStep, db0, [o, o], db1); assert [o, o][1..] == [o]; }
      FoldNodes(RootStep, db1, [o]);
      { FoldFails(RootStep, db1, [o], DuplicateEntry("a")); }
      Failure(DuplicateEntry("a"));
    }
  }

  /** A document's root must be `<database>` with an integer `timestamp`; otherwise the load throws. */
  lemma RootErrors(root: Node)
    ensures !IsTag(root, "database") ==> Decode(root) == Failure(NoDatabaseRoot)
    ensures IsTag(root, "database") && "timestamp" !in root.attrs ==> Decode(root) == Failure(MissingAttribute("timestamp"))
    ensures IsTag(root, "database") && "timestamp" in root.attrs && ParseInt(root.attrs["timestamp"]).None? ==>
      Decode(root) == Failure(NotAnInteger(root.attrs["timestamp"]))
  {
  }

  /** Children of `<database>` other than `<categories>` and `<object>` are passed over. */
  lemma OtherRootChildrenIgnored(attrs: map<string, string>, xs: seq<Node>, n: Node, ys: seq<Node>)
    requires !IsTag(n, "categories") && !IsTag(n, "object")
    ensures Decode(Element("database", attrs, xs + [n] + ys)) == Decode(Element("database", attrs, xs + ys))
  {
    forall db: Database
      ensures RootStep(db, n) == Success(db)
    {
    }
    if "timestamp" in attrs && ParseInt(attrs["timestamp"]).Some? {
      FoldSkip(RootStep, EmptyDatabase.(timestamp := ParseInt(attrs["timestamp"]).value), xs, n, ys);
    }
  }

  lemma {:induction false} FieldsXmlAppend(a: seq<ObjectDbField>, b: seq<ObjectDbField>)
    ensures FieldsXml(a + b) == FieldsXml(a) + FieldsXml(b)
  {
    if a == [] {
      assert a + b == b;
    } else {
      assert (a + b)[1..] == a[1..] + b;
      FieldsXmlAppend(a[1..], b);
    }
  }

  lemma {:induction false} CategoriesXmlAppend(a: seq<(int32, string)>, b: seq<(int32, string)>)
    ensures CategoriesXml(a + b) == CategoriesXml(a) + CategoriesXml(b)
  {
    if a == [] {
      assert a + b == b;
    } else {
      assert (a + b)[1..] == a[1..] + b;
      CategoriesXmlAppend(a[1..], b);
    }
  }

  lemma {:induction false} ObjectsXmlAppend(a: seq<(string, ObjectDbEntry)>, b: seq<(string, ObjectDbEntry)>)
    ensures ObjectsXml(a + b) == ObjectsXml(a) + ObjectsXml(b)
  {
    if a == [] {
      assert a + b == b;
    } else {
      assert (a + b)[1..] == a[1..] + b;
      ObjectsXmlAppend(a[1..], b);
    }
  }

  /** A written `<category>` whose id was already read throws. */
  lemma CategoryFails(done: seq<(int32, string)>, c: (int32, string), after: seq<(int32, string)>)
    requires HasKey(done, c.0)
    ensures FoldNodes(CategoryStep, done, CategoriesXml([c] + after)) == Failure(DuplicateCategory(c.0))
  {
    assert ([c] + after)[0] == c && ([c] + after)[1..] == after;
    CategoryXmlStep(done, c);
  }

  /** Reading written categories throws at the first id already read. */
  lemma CategoriesFailAt(before: seq<(int32, string)>, c: (int32, string), after: seq<(int32, string)>)
    requires DistinctKeys(before) && HasKey(before, c.0)
    ensures FoldNodes(CategoryStep, [], CategoriesXml(before + [c] + after)) == Failure(DuplicateCategory(c.0))
  {
    assert before + [c] + after == before + ([c] + after);
    CategoriesXmlAppend(before, [c] + after);
    assert [] + before == before;
    CategoriesRoundTrip([], before);
    FoldAppend(CategoryStep, [], CategoriesXml(before), CategoriesXml([c] + after));
    CategoryFails(before, c, after);
  }

  /** A written `<object>` whose id was already read throws. */
  lemma ObjectFails(db: Database, entry: (string, ObjectDbEntry), after: seq<(string, ObjectDbEntry)>)
    requires HasKey(db.entries, entry.0)
    ensures FoldNodes(RootStep, db, ObjectsXml([entry] + after)) == Failure(DuplicateEntry(entry.0))
  {
    assert ([entry] + after)[0] == entry && ([entry] + after)[1..] == after;
    ObjectStep(db, entry);
  }

  /** The objects before the duplicate read back into an empty database, ids unchanged. */
  lemma ObjectsPrefixRead(db: Database, before: seq<(string, ObjectDbEntry)>)
    requires db.entries == [] && db.idToModel == map[]
    requires DistinctKeys(before)
    ensures FoldNodes(RootStep, db, ObjectsXml(before)).Success?
    ensures FoldNodes(RootStep, db, ObjectsXml(before)).value.entries == Reloaded(before)
  {
    ReloadedKeepsKeys(before);
    assert db.entries + Reloaded(before) == Reloaded(before);
    ObjectsRoundTrip(db, before);
  }

  /** Reading written objects into an empty database throws at the first id already read. */
  lemma ObjectsFailAt(db: Database, before: seq<(string, ObjectDbEntry)>, entry: (string, ObjectDbEntry), after: seq<(string, ObjectDbEntry)>)
    requires db.entries == [] && db.idToModel == map[]
    requires DistinctKeys(before) && HasKey(before, entry.0)
    ensures FoldNodes(RootStep, db, ObjectsXml(before + [entry] + after)) == Failure(DuplicateEntry(entry.0))
  {
    assert before + [entry] + after == before + ([entry] + after);
    ObjectsXmlAppend(before, [entry] + after);
    ObjectsPrefixRead(db, before);
    var mid := FoldNodes(RootStep, db, ObjectsXml(before)).value;
    FoldThen(RootStep, db, ObjectsXml(before), ObjectsXml([entry] + after), mid);
    var i :| 0 <= i < |before| && before[i].0 == entry.0;
    assert mid.entries[i].0 == entry.0;
    ObjectFails(mid, entry, after);
  }

  /** A written document whose categories throw throws the same. */
  lemma EncodedCategoriesFail(db: Database, err: DecodeError)
    requires FoldNodes(CategoryStep, [], CategoriesXml(db.categories)) == Failure(err)
    ensures Decode(Encode(db)) == Failure(err)
  {
    EncodedDocumentSteps(db);
  }

  /** A written document whose categories read back fully ends as its objects do. */
  lemma EncodedObjects(db: Database)
    requires DistinctKeys(db.categories)
    ensures Decode(Encode(db)) ==
      FoldNodes(RootStep, EmptyDatabase.(timestamp := db.timestamp, categories := db.categories), ObjectsXml(db.entries))
  {
    EncodedDocumentSteps(db);
    assert [] + db.categories == db.categories;
    CategoriesRoundTrip([], db.categories);
  }

  /** A document that repeats an object id throws at the second occurrence. */
  lemma DuplicateEntryRejected(db: Database, i: nat, j: nat)
    requires DistinctKeys(db.categories)
    requires i < j < |db.entries| && db.entries[i].0 == db.entries[j].0
    requires DistinctKeys(db.entries[..j])
    ensures Decode(Encode(db)) == Failure(DuplicateEntry(db.entries[j].0))
  {
    var es := db.entries;
    var start := EmptyDatabase.(timestamp := db.timestamp, categories := db.categories);
    calc {
      Decode(Encode(db));
      { EncodedObjects(db); }
      FoldNodes(RootStep, start, ObjectsXml(es));
      { assert es == es[..j] + [es[j]] + es[j + 1..]; }
      FoldNodes(RootStep, start, ObjectsXml(es[..j] + [es[j]] + es[j + 1..]));
      { assert es[..j][i] == es[i];
        ObjectsFailAt(start, es[..j], es[j], es[j + 1..]); }
      Failure(DuplicateEntry(es[j].0));
    }
  }

  /** A document that repeats a category id throws at the second occurrence. */
  lemma DuplicateCategoryRejected(db: Database, i: nat, j: nat)
    requires i < j < |db.categories| && db.categories[i].0 == db.categories[j].0
    requires DistinctKeys(db.categories[..j])
    ensures Decode(Encode(db)) == Failure(DuplicateCategory(db.categories[j].0))
  {
    var cs := db.categories;
    calc {
      FoldNodes(CategoryStep, [], CategoriesXml(cs));
      { assert cs == cs[..j] + [cs[j]] + cs[j + 1..]; }
      FoldNodes(CategoryStep, [], CategoriesXml(cs[..j] + [cs[j]] + cs[j + 1..]));
      { assert cs[..j][i] == cs[i];
        CategoriesFailAt(cs[..j], cs[j], cs[j + 1..]); }
      Failure(DuplicateCategory(cs[j].0));
    }
    EncodedCategoriesFail(db, DuplicateCategory(cs[j].0));
  }
}
