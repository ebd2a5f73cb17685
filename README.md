# The4Dimension editor core in Dafny

This project models four small components of the level editor's
`CustomClasses.cs`. Proofs are written about each model.

- **`CustomStack<T>`**: the bounded undo history.
  - It is a class whose `items` list `Push`, `Pop` and `Remove` change in place.
  - `Push` runs the source's eviction loop, `for (i = MaxItems; i < Count; i++) Remove(0)`.
  - The model keeps that loop as written. `i` rises while the count falls, so the loop runs `ceil(d / 2)` times for a surplus of `d` (`EvictionsHalveSurplus`).
  - A push onto a list within the bound therefore stays within the bound (`PushWithinBound`).
  - When the list is two or more over `MaxItems` after the `Add` (for instance a full stack of 50 after `MaxItems` was lowered to 49), the loop does not bring the count down to `MaxItems`: it stays `d / 2` over (`PartialEviction`). The model keeps the loop as written.
- **`UndoAction`**: a class holding a name, the captured arguments and an optional callback.
  - `Undo` returns the single call it makes.
- **`ClipBoardItem`**: a datatype with one payload per `ClipboardType`.
  - The two `ToString` overloads build the editor's descriptions.
  - Coordinates, rail names and object texts are rendered by functions passed in as parameters.
  - A lemma proves that every description names the item's kind.
- **`ObjectDb`**: the object-type database, with its XML codec over a document tree (`XmlTree.Node`).
  - `ObjectDbCodec.Decode` is what `ObjectDb.FromXml` computes. It returns a `Result` whose failures are the exceptions the source can throw.
  - `ObjectDbCodec.Encode` is the tree `GetXmlBytes` writes.
  - `ObjectDatabase.ObjectDb` is the class itself. Its `FromXml` and `GetXmlBytes` loop over the nodes and records as the source does, and are proved to compute `Decode` and `Encode`.
  - `ObjectDbProperties` proves the round trip, the consistency of a loaded database (unique keys, `IdToModel` indexes the entries), the entry reader's tag rules and the error cases.

Dictionaries are modelled as association lists in insertion order. That is the
order `Dictionary<K, V>` enumerates them in while nothing is removed, and the
order `GetXmlBytes` writes them in. `Int32.Parse`, `Int32.ToString` and
`String.Trim` are modelled concretely in `DotNetText`, and `Int32.Parse`
undoes `Int32.ToString` (`ParseIntRoundTrip`).

Modules: `Wrappers` (`Option`, `Result`), `DotNetText`, `XmlTree`,
`UndoHistory`, `Clipboard`, `ObjectDbCodec`, `ObjectDbProperties`,
`ObjectDatabase`.

## Model

| member | source | states |
|---|---|---|
| UndoHistory.RemoveAt | The4Dimension/CustomClasses.cs:40-43 | `List.RemoveAt(i)`: one element shorter; elements before `i` stay, later ones shift down by one |
| UndoHistory.Evictions | The4Dimension/CustomClasses.cs:48-51 | the number of rounds of the eviction loop; never more than the count when `MaxItems >= -count`, and fewer than the count when `MaxItems >= 1` |
| UndoHistory.EvictionsStopAtFirst | The4Dimension/CustomClasses.cs:50 | the loop stops at the first round `k` where `MaxItems + k >= count - k`, and not one round earlier |
| UndoHistory.EvictionsHalveSurplus | The4Dimension/CustomClasses.cs:48-50 | over the bound by `d`, the loop runs exactly `(d + 1) / 2` times; within the bound, not at all |
| UndoHistory.Pushed | The4Dimension/CustomClasses.cs:45-52 | the list after a push is a suffix of `items + [x]`, so only the oldest entries go and the survivors keep their order; with `MaxItems >= 1` the new item is last |
| UndoHistory.Newest | The4Dimension/CustomClasses.cs:45-52 | reference definition: the last `n` elements, or all of them when there are fewer |
| UndoHistory.PushWithinBound | The4Dimension/CustomClasses.cs:45-52 | starting within the bound, a push stays within it; below the bound it only appends; at the bound it drops exactly the oldest; a bound of 0 keeps nothing |
| UndoHistory.PartialEviction | The4Dimension/CustomClasses.cs:48-50 | after `MaxItems` is lowered so the surplus is `d >= 2`, a push removes `ceil(d / 2)` entries and leaves the stack `d / 2` over the bound |
| UndoHistory.PushKeepsNewest | The4Dimension/CustomClasses.cs:45-52 | pushing onto the newest `n` of `t` gives the newest `n` of `t + [x]` |
| UndoHistory.CustomStack.constructor | The4Dimension/CustomClasses.cs:34-35 | a new stack is empty with `MaxItems` 50 |
| UndoHistory.CustomStack.Count | The4Dimension/CustomClasses.cs:37-38 | `Count` is the number of items |
| UndoHistory.CustomStack.Remove | The4Dimension/CustomClasses.cs:40-43 | needs an index within the list; afterwards the items are exactly the old ones without that index; `MaxItems` is unchanged |
| UndoHistory.CustomStack.Push | The4Dimension/CustomClasses.cs:45-52 | the loop as written leaves exactly `Pushed(old items, MaxItems, item)`; it needs `MaxItems >= -(Count + 1)`, the condition under which the loop never removes from an empty list |
| UndoHistory.CustomStack.Pop | The4Dimension/CustomClasses.cs:54-63 | on a non-empty stack, returns the last item and removes exactly it; on an empty stack, returns `None` (`default(T)`) and changes nothing |
| UndoHistory.CustomStack.ToArray | The4Dimension/CustomClasses.cs:65-68 | a fresh array with the items in push order; the stack is not modified |
| UndoHistory.PushTwo | The4Dimension/CustomClasses.cs:45-52 | two pushes onto a new stack keep both items, oldest first, with `MaxItems` still 50 |
| UndoHistory.PushPopScenario | The4Dimension/CustomClasses.cs:45-63 | `Push(A); Push(B); Pop(); Pop(); Pop()` on a new stack yields B, then A, then nothing |
| UndoHistory.PushSequence | The4Dimension/CustomClasses.cs:45-52 | pushing `xs` one by one with bound `n` keeps the newest `n` of them, in push order |
| UndoHistory.KeepsLastFifty | The4Dimension/CustomClasses.cs:35 | 60 pushes into the default bound keep exactly the last 50 pushed |
| UndoHistory.UndoAction.constructor | The4Dimension/CustomClasses.cs:87-92 | stores name, arguments and callback; calls nothing |
| UndoHistory.UndoAction.Undo | The4Dimension/CustomClasses.cs:77-80 | needs a callback, then performs exactly one call of it with the stored arguments |
| UndoHistory.UndoAction.ToString | The4Dimension/CustomClasses.cs:82-85 | the description is the action's name |
| Clipboard.Coordinates | The4Dimension/CustomClasses.cs:123-127 | the `String.Format("… - X:{0} Y:{1} Z:{2}")` text of the Position, Rotation and Scale cases (the same calls recur at lines 146-150); `DescriptionExamples` pins its output and `DescriptionNamesKind` shows the kind is read back from it |
| Clipboard.ClipBoardItem.Type | The4Dimension/CustomClasses.cs:114 | the `Type` field, one `ClipboardType` per payload kind; `DescriptionNamesKind` reads it back from the description |
| Clipboard.ClipBoardItem.ToString | The4Dimension/CustomClasses.cs:118-139 | the `switch` on `Type`; what it promises is stated by `DescriptionNamesKind` (the kind is recoverable) and `DescriptionExamples` |
| Clipboard.ClipBoardItem.ToStringAsChildren | The4Dimension/CustomClasses.cs:141-164 | equal to `ToString()` except for a full object with a marker `>= 0`, which reads "Paste object as children - " and the object's text |
| Clipboard.DescriptionNamesKind | The4Dimension/CustomClasses.cs:118-139 | whatever the payload renders to, the fixed text of `ToString()` names the item's `ClipboardType` (`KindOfDescription` inverts it) |
| Clipboard.AsChildrenNamesKind | The4Dimension/CustomClasses.cs:141-164 | the same for `ToString(int)` |
| Clipboard.ObjectArrayKind | The4Dimension/CustomClasses.cs:135 | a description that starts with "Object[" is read back as an object array |
| Clipboard.DescriptionExamples | The4Dimension/CustomClasses.cs:118-139 | concrete descriptions: "Position - X:1 Y:2 Z:3", "Not set", "Rail - MyRail", "Object[3]" |
| Clipboard.AsChildrenExamples | The4Dimension/CustomClasses.cs:141-164 | a full object reads "Paste object as children - lamp" with marker 0 and "Object - lamp" with marker -1 |
| DotNetText.Trim | The4Dimension/CustomClasses.cs:331 | `String.Trim()` over the `char.IsWhiteSpace` set; its contents are stated by `TrimSpec` and `TrimEmptyIffBlank` |
| DotNetText.ParseInt | The4Dimension/CustomClasses.cs:317 | `int.Parse` under `NumberStyles.Integer`: optional white space, an optional sign, decimal digits, optional white space, within the 32-bit range; stated by `ParseIntRoundTrip`, `DigitsValueAccepts` and `ParseIntExamples` |
| DotNetText.LeadingWhite | The4Dimension/CustomClasses.cs:331 | the length of the leading white-space run, at most the string's length; the character after the run, if any, is not white space |
| DotNetText.LeadingWhiteSpec | The4Dimension/CustomClasses.cs:331 | every character of that run is white space; the next one, if any, is not |
| DotNetText.TrimWith | The4Dimension/CustomClasses.cs:331 | trimming never lengthens a string, and what it keeps starts and ends with a character that is not white space |
| DotNetText.TrimSpec | The4Dimension/CustomClasses.cs:331 | `Trim()` keeps one contiguous piece, drops only white space before and after it, and the piece neither starts nor ends with white space |
| DotNetText.TrimEmptyIffBlank | The4Dimension/CustomClasses.cs:331 | `model.Trim() != ""` exactly when the model has a non-white-space character |
| DotNetText.DigitsValueAccepts | The4Dimension/CustomClasses.cs:317 | a digit string has a value exactly when every character is a decimal digit |
| DotNetText.NatToDecimal | The4Dimension/CustomClasses.cs:355 | decimal digits of a natural number, non-empty, without a leading zero |
| DotNetText.DecimalRoundTrip | The4Dimension/CustomClasses.cs:355 | reading the digits of `n` (as `int.Parse` at line 317 does) gives `n` back |
| DotNetText.IntToString | The4Dimension/CustomClasses.cs:355 | `Int32.ToString` is non-empty and starts with '-' exactly for negative numbers |
| DotNetText.ParseIntRoundTrip | The4Dimension/CustomClasses.cs:355 | `Int32.Parse(i.ToString()) == i` for every 32-bit `i`, so the timestamp written here is read back at line 317, and so are the ids at 360/324 |
| DotNetText.ParseIntExamples | The4Dimension/CustomClasses.cs:317 | " 42 " and "+7" parse, "-0" is 0; "", " - " and "4 2" throw |
| XmlTree.Attribute | The4Dimension/CustomClasses.cs:317 | `Attributes[key]` is non-null exactly on an element that has the attribute |
| XmlTree.TextElement | The4Dimension/CustomClasses.cs:425-427 | in the document tree, a written text element has the tag and attributes asked for and reads back its text as `InnerText` |
| XmlTree.EmptyElement | The4Dimension/CustomClasses.cs:432-440 | an element with only attributes has empty `InnerText` |
| XmlTree.InnerText | The4Dimension/CustomClasses.cs:394 | `XmlNode.InnerText`: the text of all descendant text nodes in order; `TextElement` and `EmptyElement` state what it gives on written elements |
| ObjectDbCodec.TextAttribute | The4Dimension/CustomClasses.cs:471-474 | `Attributes[key].InnerText` succeeds exactly when the attribute is there, with its value; otherwise a missing-attribute failure |
| ObjectDbCodec.IntAttribute | The4Dimension/CustomClasses.cs:470 | `int.Parse(Attributes[key].InnerText)` (also at lines 317, 324, 403-407) succeeds exactly when the attribute is there and parses, with the parsed value |
| ObjectDbCodec.NewEntry | The4Dimension/CustomClasses.cs:382-388 | `new ObjectDbEntry()`: `name`, `notes` and `files` start null, `model` and `type` start "", the integers 0 and `Fields` empty; `LastOccurrenceWins` and `HeaderRoundTrip` show which fields a missing tag leaves at these values |
| ObjectDbCodec.FieldFromXml | The4Dimension/CustomClasses.cs:467-476 | `ObjectDbField.FromXml`: the five attributes in source order; stated by `FieldAttributesRequired` and `FieldRoundTrip` |
| ObjectDbCodec.FoldNodes | The4Dimension/CustomClasses.cs:389 | the `foreach` over child nodes (also the loops at lines 318 and 322), which stops at the first exception; `FoldOne`, `FoldAppend`, `FoldFails` and `FoldStopsAtFailure` state how it runs |
| ObjectDbCodec.EntryStep | The4Dimension/CustomClasses.cs:391-418 | one round of the tag `switch`; stated by `EntryStepText`, `EntryStepFields`, `HeaderAttributesRequired` and `UnknownTagsIgnored` |
| ObjectDbCodec.ParseEntry | The4Dimension/CustomClasses.cs:386-421 | `ObjectDbEntry.FromXml`: the `foreach` over the children from a new entry, stopping at the first exception; stated by `LastOccurrenceWins`, `FieldsInDocumentOrder` and `EntryRoundTrip` |
| ObjectDbCodec.HasKey | The4Dimension/CustomClasses.cs:324 | the key test `Dictionary.Add` makes before it throws (also for `Entries.Add` at line 330); `DecodeKeepsDocumentIds` and the `Repeated*IdRejected` lemmas show what it rejects |
| ObjectDbCodec.CategoryStep | The4Dimension/CustomClasses.cs:324 | one `Categories.Add(int.Parse(id), InnerText)`, throwing on a repeated id; stated by `CategoryKeysInOrder` and `CategoriesStayDistinct` |
| ObjectDbCodec.RootStep | The4Dimension/CustomClasses.cs:318-333 | one round of the loop over the children of `<database>`; stated by `RootStaysConsistent` and `RootStepKeys` |
| ObjectDbCodec.IndexEntry | The4Dimension/CustomClasses.cs:331 | the `IdToModel.Add` made when the model is not blank |
| ObjectDbCodec.ModelIndex | The4Dimension/CustomClasses.cs:331 | the `IdToModel` that adding the entries in order builds; stated by `ModelIndexDomain` and `ModelIndexValue` |
| ObjectDbCodec.EmptyDatabase | The4Dimension/CustomClasses.cs:306-309 | a new `ObjectDb`: both dictionaries and `IdToModel` empty, timestamp 0, before `FromXml` sets the timestamp and reads the children |
| ObjectDbCodec.Decode | The4Dimension/CustomClasses.cs:311-335 | what `FromXml` computes; stated by `DecodeConsistent`, `DecodeKeepsDocumentIds`, `RootErrors` and `RoundTrip` |
| ObjectDbCodec.FieldXml | The4Dimension/CustomClasses.cs:456-465 | the `<field>` element `ObjectDbField.WriteXml` writes; `FieldRoundTrip` reads it back |
| ObjectDbCodec.FieldsXml | The4Dimension/CustomClasses.cs:447 | the `foreach` over `Fields`: exactly one `<field>` element per field, the `i`-th written from the `i`-th field |
| ObjectDbCodec.EntryHeaderXml | The4Dimension/CustomClasses.cs:425-446 | the seven fixed children, null text written as ""; `HeaderRoundTrip` reads them back |
| ObjectDbCodec.EntryXml | The4Dimension/CustomClasses.cs:423-448 | everything `ObjectDbEntry.WriteXml` writes; `EntryRoundTrip` reads it back |
| ObjectDbCodec.CategoryXml | The4Dimension/CustomClasses.cs:359-362 | one `<category id=...>` element with the name as text; `CategoryXmlStep` reads it back |
| ObjectDbCodec.CategoriesXml | The4Dimension/CustomClasses.cs:357-363 | the categories in order; `CategoriesRoundTrip` reads them back |
| ObjectDbCodec.ObjectXml | The4Dimension/CustomClasses.cs:367-370 | one `<object id=...>` element holding the entry; `ObjectStep` reads it back |
| ObjectDbCodec.ObjectsXml | The4Dimension/CustomClasses.cs:365-372 | the objects in order; `ObjectsRoundTrip` reads them back |
| ObjectDbCodec.Encode | The4Dimension/CustomClasses.cs:353-373 | the document `GetXmlBytes` writes; `RoundTrip` reads it back |
| ObjectDbProperties.Reloaded | The4Dimension/CustomClasses.cs:423-446 | the entry list after a save and load: the same ids in the same places, null name, notes and files read back as "" |
| ObjectDbProperties.FoldAppend | The4Dimension/CustomClasses.cs:389 | for the `foreach` loops over child nodes (also at lines 318 and 322), reading two runs is reading the first, then the second from where it left off, unless the first throws |
| ObjectDbProperties.FoldFails | The4Dimension/CustomClasses.cs:389 | a first child that throws ends the whole `foreach` with its exception |
| ObjectDbProperties.FoldStopsAtFailure | The4Dimension/CustomClasses.cs:389 | in each `foreach` over child nodes, the first child that throws ends the whole loop with its exception |
| ObjectDbProperties.FieldRoundTrip | The4Dimension/CustomClasses.cs:456-476 | `ObjectDbField.FromXml` after `WriteXml` gives the field back |
| ObjectDbProperties.HeaderRoundTrip | The4Dimension/CustomClasses.cs:386-446 | the seven fixed children of an entry read back into a new entry, null text as "" |
| ObjectDbProperties.FieldsRoundTrip | The4Dimension/CustomClasses.cs:447 | the `<field>` children written here are appended back in order by the reader at line 416 |
| ObjectDbProperties.EntryRoundTrip | The4Dimension/CustomClasses.cs:386-448 | `ObjectDbEntry.FromXml` after `WriteXml` gives the entry back, null text as "" |
| ObjectDbProperties.FieldsInDocumentOrder | The4Dimension/CustomClasses.cs:416-417 | a read entry's fields are exactly its `<field>` children, in document order (`FieldValues` is the reference) |
| ObjectDbProperties.UnknownTagsIgnored | The4Dimension/CustomClasses.cs:391-419 | text and tags without a `case` leave the entry as it would be without them |
| ObjectDbProperties.LastText | The4Dimension/CustomClasses.cs:393-414 | reference definition: the text of the last child with a given tag, or none |
| ObjectDbProperties.EntryStepText | The4Dimension/CustomClasses.cs:393-414 | a `<name>`, `<type>`, `<model>`, `<notes>` or `<files>` child sets exactly its own field to its text; every other child leaves all five alone |
| ObjectDbProperties.TextFieldsFromLast | The4Dimension/CustomClasses.cs:389-419 | after any run of children, each text field holds its last occurrence's text, or its value from before the run |
| ObjectDbProperties.LastOccurrenceWins | The4Dimension/CustomClasses.cs:386-421 | a read entry's `name`, `type`, `model`, `notes` and `files` are the text of the last such child wherever it stands (`LastText`); absent ones stay null, or "" for `type` and `model` |
| ObjectDbProperties.LastOccurrenceExample | The4Dimension/CustomClasses.cs:393-401 | `<name>a</name><name>b</name><model>m</model>` reads name "b" and model "m" |
| ObjectDbProperties.HeaderAttributesRequired | The4Dimension/CustomClasses.cs:402-408 | `<flags>` succeeds exactly with integer `known` and `complete`, `<category>` exactly with an integer `id`; the first missing attribute is the failure |
| ObjectDbProperties.FieldAttributesRequired | The4Dimension/CustomClasses.cs:467-476 | `ObjectDbField.FromXml` succeeds exactly on an element with all five attributes and an integer id; a missing id is the failure |
| ObjectDbProperties.DistinctAppend | The4Dimension/CustomClasses.cs:324 | a `Dictionary.Add` of a key not yet present (here and at line 330) keeps the keys unique |
| ObjectDbProperties.ModelIndexDomain | The4Dimension/CustomClasses.cs:331 | an id is in `IdToModel` exactly when some entry with that id has a non-blank model |
| ObjectDbProperties.ModelIndexValue | The4Dimension/CustomClasses.cs:331 | with unique ids, an entry's id is in `IdToModel` exactly when `model.Trim() != ""`, and it maps to that entry's model |
| ObjectDbProperties.IndexedIdsAreEntries | The4Dimension/CustomClasses.cs:330-331 | only ids of loaded entries are indexed, so `IdToModel.Add` after a successful `Entries.Add` never meets its key twice |
| ObjectDbProperties.ModelIndexReloaded | The4Dimension/CustomClasses.cs:331 | reading null text as "" changes no model, so the index is the same |
| ObjectDbProperties.CategoriesRoundTrip | The4Dimension/CustomClasses.cs:357-363 | categories with unique ids written here read back in order through the loop at lines 322-325 |
| ObjectDbProperties.ObjectsRoundTrip | The4Dimension/CustomClasses.cs:365-372 | objects with unique ids written here read back in order through lines 327-332 and are indexed |
| ObjectDbProperties.RoundTrip | The4Dimension/CustomClasses.cs:311-378 | at the level of the document tree, loading what `GetXmlBytes` writes gives the same timestamp and categories, the entries in order with null text as "", and `IdToModel` rebuilt from the entries |
| ObjectDbProperties.ReloadedIdempotent | The4Dimension/CustomClasses.cs:382 | normalising null text twice is normalising it once |
| ObjectDbProperties.SecondRoundTripIsIdentity | The4Dimension/CustomClasses.cs:311-378 | a second save and load changes nothing |
| ObjectDbProperties.CategoriesStayDistinct | The4Dimension/CustomClasses.cs:322-325 | reading categories keeps the category ids unique |
| ObjectDbProperties.RootStaysConsistent | The4Dimension/CustomClasses.cs:318-333 | every child of `<database>` keeps keys unique, keeps `IdToModel` equal to the index of the entries, and keeps the timestamp |
| ObjectDbProperties.DecodeConsistent | The4Dimension/CustomClasses.cs:311-335 | every database that loads has unique keys, `IdToModel` indexing its entries, and the root's `timestamp` attribute as its timestamp |
| ObjectDbProperties.ObjectIds | The4Dimension/CustomClasses.cs:327-330 | reference definition: the `id` of every `<object>` child of `<database>`, in document order |
| ObjectDbProperties.CategoryIds | The4Dimension/CustomClasses.cs:320-324 | reference definition: the integer `id` of every child of every `<categories>` child, in document order |
| ObjectDbProperties.FoldKeys | The4Dimension/CustomClasses.cs:318-333 | a `foreach` whose every round appends one node's ids to a key list appends the ids of all the nodes, in document order |
| ObjectDbProperties.CategoryStepKeys | The4Dimension/CustomClasses.cs:324 | one `Categories.Add` appends the child's `id` to the category keys |
| ObjectDbProperties.CategoryKeysInOrder | The4Dimension/CustomClasses.cs:322-325 | reading one `<categories>` appends its ids to the category keys, in order |
| ObjectDbProperties.RootStepKeys | The4Dimension/CustomClasses.cs:320-331 | one child of `<database>` appends its object id or its category ids to the keys, and nothing else |
| ObjectDbProperties.RootEntryKeysInOrder | The4Dimension/CustomClasses.cs:318-333 | reading children of `<database>` appends exactly their object ids to the entry keys, in order |
| ObjectDbProperties.RootCategoryKeysInOrder | The4Dimension/CustomClasses.cs:318-333 | reading children of `<database>` appends exactly their category ids, across all `<categories>`, to the category keys, in order |
| ObjectDbProperties.DecodeKeepsDocumentIds | The4Dimension/CustomClasses.cs:311-335 | for every document that loads, the entry keys are `ObjectIds` and the category keys `CategoryIds` of its children, so neither repeats |
| ObjectDbProperties.RepeatedObjectIdRejected | The4Dimension/CustomClasses.cs:330 | any document whose `<object>` ids repeat, wherever the objects stand, fails to load |
| ObjectDbProperties.RepeatedCategoryIdRejected | The4Dimension/CustomClasses.cs:324 | any document whose category ids repeat, within one `<categories>` or across several, fails to load |
| ObjectDbProperties.BareDuplicateObjectRejected | The4Dimension/CustomClasses.cs:330 | `<database timestamp="1">` with two `<object id="a"/>` children fails with the duplicate-entry exception for "a" |
| ObjectDbProperties.RootErrors | The4Dimension/CustomClasses.cs:316-317 | no `<database>` root, a missing `timestamp` or a non-integer one each make the load throw |
| ObjectDbProperties.OtherRootChildrenIgnored | The4Dimension/CustomClasses.cs:318-333 | children of `<database>` other than `<categories>` and `<object>` are passed over |
| ObjectDbProperties.DuplicateEntryRejected | The4Dimension/CustomClasses.cs:330 | for the encoder's own output: a written database that repeats an object id fails to load at its second occurrence with the duplicate-entry exception |
| ObjectDbProperties.DuplicateCategoryRejected | The4Dimension/CustomClasses.cs:324 | for the encoder's own output: a written database that repeats a category id fails to load at its second occurrence with the duplicate-category exception |
| ObjectDatabase.EntryFromXml | The4Dimension/CustomClasses.cs:386-421 | the `foreach`/`switch` loop computes exactly `ParseEntry` |
| ObjectDatabase.WriteEntryXml | The4Dimension/CustomClasses.cs:423-448 | the writer produces exactly `EntryXml`: seven fixed children, then one `<field>` per field in order |
| ObjectDatabase.WriteCategoriesXml | The4Dimension/CustomClasses.cs:357-363 | the category loop writes exactly `CategoriesXml` |
| ObjectDatabase.WriteObjectsXml | The4Dimension/CustomClasses.cs:365-372 | the object loop writes exactly `ObjectsXml` |
| ObjectDatabase.ObjectDb.constructor | The4Dimension/CustomClasses.cs:306-309 | a new database is empty |
| ObjectDatabase.ObjectDb.FromXml | The4Dimension/CustomClasses.cs:311-335 | succeeds exactly when `Decode` does, with a fresh database holding `Decode`'s result, or fails with `Decode`'s exception; `IdToModel.Add` is shown never to meet an existing key |
| ObjectDatabase.ObjectDb.GetXmlBytes | The4Dimension/CustomClasses.cs:342-378 | sets the timestamp to `now` only when asked (`updateTimestamp` defaults to `true`, as in the source), changes nothing else, and writes exactly `Encode` of the new state |
| ObjectDatabase.SaveAndReload | The4Dimension/CustomClasses.cs:311-378 | `FromXml` of what `GetXmlBytes` wrote succeeds, giving `RoundTrip`'s result |

## Left out

- XML text. `XmlDocument.LoadXml`, `SelectSingleNode` and `XmlWriter` are library code. The model works on the document tree they produce and consume. Left out with them:
  - indentation;
  - the one raw `"\r"` written after each object;
  - the whitespace-only text nodes a default load drops;
  - the newline normalisation of writer and reader;
  - comment and processing-instruction nodes;
  - UTF-8 encoding.
- `GetXml`: it only decodes the bytes `GetXmlBytes` returns as a string, so it is the same tree.
- `DateTime.Now` and the truncating conversion of the elapsed seconds to `int` in `GetXmlBytes`. The new timestamp is the parameter `now`.
- `Int32.Parse` details outside the invariant culture: trailing NUL characters and culture-specific sign symbols.
- `Single.ToString()`, `Rail.Name` and `LevelObj.ToString()` are external. They are parameters of `Clipboard.Rendering`.
- Clipboard.ClipBoardItem.ToString: the model carries only the payload of the item's kind. A null `Rail`, `Objs` or `Objs[0]` on any item, which would throw in the source, cannot be built. An empty `Objs` on a full object is excluded by the precondition `HasObject`.
- Clipboard.ClipBoardItem.ToStringAsChildren: the same payload model and the same precondition `HasObject` as `ToString`.
- UndoHistory.UndoAction.Undo: the callback is foreign code. The method returns the call it makes instead of running it.
- UndoHistory.CustomStack.Push: a `MaxItems` below `-(Count + 1)` makes the source's loop call `RemoveAt(0)` on an empty list and throw. The precondition excludes it rather than modelling the exception.
- Entries are values. The source shares `ObjectDbEntry` objects by reference; aliasing between the dictionary and other holders is not modelled.
- `CustomStringWriter`, `DictionaryPropertyGridAdapter`, `DictionaryPropertyDescriptor`, `IndexedProperty`, `AllInfoSection` and `Extensions.ToVect`: I/O, reflection, delegate and geometry glue outside the core.
- ObjectDbProperties.RoundTrip: the round trip holds for the document tree, not for the bytes the program writes and reads. Some strings change on the way through the text:
  - `LoadXml` drops whitespace-only text, so a name, type, model, notes, files or category name such as `" "` loads back as `""`;
  - `"\r\n"` and `"\r"` inside text load back as `"\n"`.

  The same holds for `SecondRoundTripIsIdentity`, `SaveAndReload` and `XmlTree.TextElement`.
- ObjectDatabase.ObjectDb.GetXmlBytes: `XmlWriter` throws `ArgumentException` on characters XML 1.0 forbids (such as U+0001) in any written string. The source then throws after it has already set `timestamp`. The model's writer always succeeds.
- XmlTree.Node: there is no comment node. A comment inside `<categories>` has null `Attributes` and makes the source throw; a comment elsewhere is passed over. The model cannot express either case.
- ObjectDbProperties.RoundTrip: it is stated for databases whose categories and entries have unique keys, which every `Dictionary` has. Null `name`, `notes` and `files` of an entry come back as "", as `WriteString(null)` writes nothing; other fields are never null in the core.
