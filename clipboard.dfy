/**
 * `ClipBoardItem`: the editor's last copied selection, tagged by its kind, and
 * the one-line descriptions the editor shows for it.
 */
module Clipboard {
  import opened DotNetText

  /** `ClipBoardItem.ClipboardType`. */
  datatype ClipboardType = NotSet | Position | Rotation | Scale | IntArray | FullObject | Rail | ObjectArray

  /**
   * How the foreign values print: `Single.ToString()` for coordinates,
   * `Rail.Name` for a rail, `LevelObj.ToString()` for a level object.
   */
  datatype Rendering<-S, -R, -O> = Rendering(single: S -> string, railName: R -> string, objectText: O -> string)

  /** "Position - X:{x} Y:{y} Z:{z}" and its Rotation and Scale siblings. */
  function Coordinates<S, R, O>(kind: string, x: S, y: S, z: S, render: Rendering<S, R, O>): string {
    kind + " - " + ("X:" + render.single(x) + " Y:" + render.single(y) + " Z:" + render.single(z))
  }

  /**
   * The item: each kind carries only its own payload. `S` stands for the
   * `Single` coordinates, `R` for `Rail`, `O` for `LevelObj`.
   */
  datatype ClipBoardItem<S, R, O> =
    | NotSet
    | Position(x: S, y: S, z: S)
    | Rotation(x: S, y: S, z: S)
    | Scale(x: S, y: S, z: S)
    | IntArray(args: seq<int32>)
    | FullObject(objs: seq<O>)
    | Rail(rail: R)
    | ObjectArray(objs: seq<O>)
  {
    /** The `Type` field. */
    function Type(): ClipboardType {
      match this
      case NotSet => ClipboardType.NotSet
      case Position(_, _, _) => ClipboardType.Position
      case Rotation(_, _, _) => ClipboardType.Rotation
      case Scale(_, _, _) => ClipboardType.Scale
      case IntArray(_) => ClipboardType.IntArray
      case FullObject(_) => ClipboardType.FullObject
      case Rail(_) => ClipboardType.Rail
      case ObjectArray(_) => ClipboardType.ObjectArray
    }

    /** A full object must have `Objs[0]`; without it the source indexes out of range. */
    predicate HasObject() {
      FullObject? ==> |objs| > 0
    }

    /** `ToString()`. */
    function ToString(render: Rendering<S, R, O>): (s: string)
      requires HasObject()
    {
      match this
      case Position(x, y, z) => Coordinates("Position", x, y, z, render)
      case Rotation(x, y, z) => Coordinates("Rotation", x, y, z, render)
      case Scale(x, y, z) => Coordinates("Scale", x, y, z, render)
      case IntArray(_) => "Args[]"
      case Rail(rail) => "Rail - " + render.railName(rail)
      case FullObject(objs) => "Object - " + render.objectText(objs[0])
      case ObjectArray(objs) => "Object[" + IntToString(|objs|) + "]"
      case NotSet => "Not set"
    }

    /**
     * `ToString(int ObjectAsChildren)`: a full object with a non-negative marker
     * is offered for pasting as children; every other description is that of
     * `ToString()`.
     */
    function ToStringAsChildren(objectAsChildren: int, render: Rendering<S, R, O>): (s: string)
      requires HasObject()
      ensures !(FullObject? && objectAsChildren >= 0) ==> s == ToString(render)
      ensures FullObject? && objectAsChildren >= 0 ==>
        s == "Paste object as children - " + render.objectText(objs[0])
    {
      match this
      case Position(x, y, z) => Coordinates("Position", x, y, z, render)
      case Rotation(x, y, z) => Coordinates("Rotation", x, y, z, render)
      case Scale(x, y, z) => Coordinates("Scale", x, y, z, render)
      case IntArray(_) => "Args[]"
      case Rail(rail) => "Rail - " + render.railName(rail)
      case FullObject(objs) =>
        if objectAsChildren < 0 then "Object - " + render.objectText(objs[0])
        else "Paste object as children - " + render.objectText(objs[0])
      case ObjectArray(objs) => "Object[" + IntToString(|objs|) + "]"
      case NotSet => "Not set"
    }
  }

  predicate HasPrefix(s: string, p: string) {
    |p| <= |s| && s[..|p|] == p
  }

  /** The kind a description was written for, read back from its fixed text. */
  function KindOfDescription(s: string): ClipboardType {
    if HasPrefix(s, "Position - ") then ClipboardType.Position
    else if HasPrefix(s, "Rotation - ") then ClipboardType.Rotation
    else if HasPrefix(s, "Scale - ") then ClipboardType.Scale
    else if s == "Args[]" then ClipboardType.IntArray
    else if HasPrefix(s, "Rail - ") then ClipboardType.Rail
    else if HasPrefix(s, "Object - ") || HasPrefix(s, "Paste object as children - ") then ClipboardType.FullObject
    else if HasPrefix(s, "Object[") then ClipboardType.ObjectArray
    else ClipboardType.NotSet
  }

  lemma PrefixOfConcat(p: string, rest: string)
    ensures HasPrefix(p + rest, p)
  {
    assert (p + rest)[..|p|] == p;
  }

  /** One differing character rules a prefix out. */
  lemma DiffersAt(s: string, p: string, i: nat)
    requires i < |p| && i < |s| && s[i] != p[i]
    ensures !HasPrefix(s, p)
  {
    if |p| <= |s| {
      assert s[..|p|][i] == s[i];
    }
  }

  /** A description that starts with `Object[` names an object array. */
  lemma ObjectArrayKind(s: string)
    requires HasPrefix(s, "Object[")
    ensures KindOfDescription(s) == ClipboardType.ObjectArray
  {
    assert s[..7][0] == 'O' && s[..7][6] == '[';
    DiffersAt(s, "Position - ", 0);
    DiffersAt(s, "Rotation - ", 0);
    DiffersAt(s, "Scale - ", 0);
    DiffersAt(s, "Rail - ", 0);
    DiffersAt(s, "Object - ", 6);
    DiffersAt(s, "Paste object as children - ", 0);
  }

  /** A description that starts with `Position - ` names a position. */
  lemma PositionKind(s: string)
    requires HasPrefix(s, "Position - ")
    ensures KindOfDescription(s) == ClipboardType.Position
  {
  }

  /** A description that starts with `Rotation - ` names a rotation. */
  lemma RotationKind(s: string)
    requires HasPrefix(s, "Rotation - ")
    ensures KindOfDescription(s) == ClipboardType.Rotation
  {
    assert s[..11][0] == 'R';
    DiffersAt(s, "Position - ", 0);
  }

  /** A description that starts with `Scale - ` names a scale. */
  lemma ScaleKind(s: string)
    requires HasPrefix(s, "Scale - ")
    ensures KindOfDescription(s) == ClipboardType.Scale
  {
    assert s[..8][0] == 'S';
    DiffersAt(s, "Position - ", 0);
    DiffersAt(s, "Rotation - ", 0);
  }

  /** A description that starts with `Rail - ` names a rail. */
  lemma RailKind(s: string)
    requires HasPrefix(s, "Rail - ")
    ensures KindOfDescription(s) == ClipboardType.Rail
  {
    assert s[..7][0] == 'R' && s[..7][1] == 'a';
    DiffersAt(s, "Position - ", 0);
    DiffersAt(s, "Rotation - ", 1);
    DiffersAt(s, "Scale - ", 0);
  }

  /** A description that starts with `Object - ` names a full object. */
  lemma ObjectKind(s: string)
    requires HasPrefix(s, "Object - ")
    ensures KindOfDescription(s) == ClipboardType.FullObject
  {
    assert s[..9][0] == 'O';
    DiffersAt(s, "Position - ", 0);
    DiffersAt(s, "Rotation - ", 0);
    DiffersAt(s, "Scale - ", 0);
    DiffersAt(s, "Rail - ", 0);
  }

  /** A description that starts with `Paste object as children - ` names a full object. */
  lemma PasteKind(s: string)
    requires HasPrefix(s, "Paste object as children - ")
    ensures KindOfDescription(s) == ClipboardType.FullObject
  {
    assert s[..27][0] == 'P' && s[..27][1] == 'a';
    DiffersAt(s, "Position - ", 1);
    DiffersAt(s, "Rotation - ", 0);
    DiffersAt(s, "Scale - ", 0);
    DiffersAt(s, "Rail - ", 0);
    DiffersAt(s, "Object - ", 0);
  }

  /** Whatever the payload renders to, a description names the item's kind. */
  lemma DescriptionNamesKind<S, R, O>(item: ClipBoardItem<S, R, O>, render: Rendering<S, R, O>)
    requires item.HasObject()
    ensures KindOfDescription(item.ToString(render)) == item.Type()
  {
    var s := item.ToString(render);
    match item
    case Position(x, y, z) =>
      assert s == "Position - " + s[11..];
      PrefixOfConcat("Position - ", s[11..]);
      PositionKind(s);
    case Rotation(x, y, z) =>
      assert s == "Rotation - " + s[11..];
      PrefixOfConcat("Rotation - ", s[11..]);
      RotationKind(s);
    case Scale(x, y, z) =>
      assert s == "Scale - " + s[8..];
      PrefixOfConcat("Scale - ", s[8..]);
      ScaleKind(s);
    case IntArray(_) =>
      DiffersAt(s, "Position - ", 0);
      DiffersAt(s, "Rotation - ", 0);
      DiffersAt(s, "Scale - ", 0);
    case Rail(rail) =>
      PrefixOfConcat("Rail - ", render.railName(rail));
      RailKind(s);
    case FullObject(objs) =>
      PrefixOfConcat("Object - ", render.objectText(objs[0]));
      ObjectKind(s);
    case ObjectArray(objs) =>
      assert s == "Object[" + (IntToString(|objs|) + "]");
      PrefixOfConcat("Object[", IntToString(|objs|) + "]");
      ObjectArrayKind(s);
    case NotSet =>
      DiffersAt(s, "Position - ", 0);
      DiffersAt(s, "Rotation - ", 0);
      DiffersAt(s, "Scale - ", 0);
      DiffersAt(s, "Rail - ", 0);
      DiffersAt(s, "Object - ", 0);
      DiffersAt(s, "Paste object as children - ", 0);
      DiffersAt(s, "Object[", 0);
  }

  /** The paste-as-children description still names the item's kind. */
  lemma AsChildrenNamesKind<S, R, O>(item: ClipBoardItem<S, R, O>, objectAsChildren: int, render: Rendering<S, R, O>)
    requires item.HasObject()
    ensures KindOfDescription(item.ToStringAsChildren(objectAsChildren, render)) == item.Type()
  {
    if item.FullObject? && objectAsChildren >= 0 {
      PrefixOfConcat("Paste object as children - ", render.objectText(item.objs[0]));
      PasteKind(item.ToStringAsChildren(objectAsChildren, render));
    } else {
      DescriptionNamesKind(item, render);
    }
  }

  /** The descriptions of a few concrete items. */
  lemma DescriptionExamples()
    ensures var render := Rendering((v: int) => IntToString(v), (r: string) => r, (o: string) => o);
      && ClipBoardItem.Position(1, 2, 3).ToString(render) == "Position - X:1 Y:2 Z:3"
      && ClipBoardItem<int, string, string>.NotSet.ToString(render) == "Not set"
      && ClipBoardItem<int, string, string>.Rail("MyRail").ToString(render) == "Rail - MyRail"
      && ClipBoardItem<int, string, string>.ObjectArray(["a", "b", "c"]).ToString(render) == "Object[3]"
  {
  }

  /** Both descriptions of a full object. */
  lemma AsChildrenExamples()
    ensures var render := Rendering((v: int) => IntToString(v), (r: string) => r, (o: string) => o);
      && ClipBoardItem<int, string, string>.FullObject(["lamp"]).ToStringAsChildren(0, render)
         == "Paste object as children - lamp"
      && ClipBoardItem<int, string, string>.FullObject(["lamp"]).ToStringAsChildren(-1, render)
         == "Object - lamp"
  {
  }
}
