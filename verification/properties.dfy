/**
 The scene variables the add-on registers (`clockworxpdt/__init__.py`): their
 enumerations, their declared ranges, the three library-name lists that
 feed the parts-library drop-downs, and the class registration order.

 Blender clamps a value written to a property with a declared range into
 that range; the `Assign…` functions below are those writes.
 */
module Properties {
  import opened Wrappers
  import opened Vectors
  import Text
  import Messages

  // ---------------------------------------------------------- enumerations

  /** `pdt_plane`: the working plane. `LO` is the plane of the current view. */
  datatype Plane = XZ | XY | YZ | LO

  /** `pdt_select`: offsets are taken from the current position or from the selection. */
  datatype MoveMode = REL | SEL

  /** `pdt_operate`: what a placement operator acts on. */
  datatype Oper = CU | PP | MV | NV | EV | SE | DG | EG

  /** `pdt_taper`: rotate-axis / move-axis pairs for the taper tool. */
  datatype TaperAxes = RXMY | RXMZ | RYMX | RYMZ | RZMX | RZMY

  /** `pdt_oborder`: which of four objects form the two intersecting lines. */
  datatype ObOrder = O1234 | O1324 | O1423

  /** `pdt_lib_mode`: which parts-library list is shown. */
  datatype LibMode = OBJECTS | COLLECTIONS | MATERIALS

  function PlaneCode(p: Plane): string
  {
    match p
    case XZ => "XZ"
    case XY => "XY"
    case YZ => "YZ"
    case LO => "LO"
  }

  function OperCode(o: Oper): string
  {
    match o
    case CU => "CU"
    case PP => "PP"
    case MV => "MV"
    case NV => "NV"
    case EV => "EV"
    case SE => "SE"
    case DG => "DG"
    case EG => "EG"
  }

  function TaperCode(t: TaperAxes): string
  {
    match t
    case RXMY => "RX-MY"
    case RXMZ => "RX-MZ"
    case RYMX => "RY-MX"
    case RYMZ => "RY-MZ"
    case RZMX => "RZ-MX"
    case RZMY => "RZ-MY"
  }

  /** The identifier string of each `pdt_oborder` item. */
  function ObOrderText(o: ObOrder): string
  {
    match o
    case O1234 => "1,2,3,4"
    case O1324 => "1,3,2,4"
    case O1423 => "1,4,2,3"
  }

  /** The 1-based object positions an order names, as the operator reads them. */
  function ObOrderPositions(o: ObOrder): seq<nat>
  {
    match o
    case O1234 => [1, 2, 3, 4]
    case O1324 => [1, 3, 2, 4]
    case O1423 => [1, 4, 2, 3]
  }

  /** `[int(k) for k in text.split(",")]`, or `None` where `int` would raise. */
  function ParsePositions(text: string): Option<seq<int>>
  {
    ParseFields(Text.Split(text, ','))
  }

  function ParseFields(fields: seq<string>): (r: Option<seq<int>>)
    ensures r.Some? ==> |r.value| == |fields|
  {
    if |fields| == 0 then Some([])
    else
      var head := Text.ParseInt(fields[0]);
      var tail := ParseFields(fields[1..]);
      if head.Some? && tail.Some? then Some([head.value] + tail.value) else None
  }

  /**
   Splitting an order's text on commas and converting each field gives four
   1-based positions that name each of the objects 1..4 exactly once.
   */
  lemma ObOrderIsPermutation(o: ObOrder)
    ensures ParsePositions(ObOrderText(o)) == Some(ObOrderPositions(o))
    ensures multiset(ObOrderPositions(o)) == multiset{1, 2, 3, 4}
  {
    ObOrderParses(o);
    match o
    case O1234 =>
    case O1324 =>
    case O1423 =>
  }

  lemma ObOrderParses(o: ObOrder)
    ensures ParsePositions(ObOrderText(o)) == Some(ObOrderPositions(o))
  {
    var ps := ObOrderPositions(o);
    var fields := FieldsOf(ps);
    OrderTextIsJoin(o);
    NoCommaInFields(ps);
    Text.SplitJoin(fields, ',');
    ParseFieldsOfNumbers(ps);
    var r := ParsePositions(ObOrderText(o));
    assert |r.value| == 4;
    assert r.value == [ps[0] as int, ps[1] as int, ps[2] as int, ps[3] as int];
  }

  /** The decimal text of each position. */
  function FieldsOf(ps: seq<nat>): (r: seq<string>)
    ensures |r| == |ps|
    ensures forall i :: 0 <= i < |ps| ==> r[i] == Text.NatToString(ps[i])
  {
    seq(|ps|, i requires 0 <= i < |ps| => Text.NatToString(ps[i]))
  }

  lemma NoCommaInFields(ps: seq<nat>)
    ensures forall i :: 0 <= i < |ps| ==> ',' !in FieldsOf(ps)[i]
  {
    forall i | 0 <= i < |ps|
      ensures ',' !in FieldsOf(ps)[i]
    {
      DigitsHaveNoComma(FieldsOf(ps)[i]);
    }
  }

  lemma OrderTextIsJoin(o: ObOrder)
    ensures |FieldsOf(ObOrderPositions(o))| == 4
    ensures ObOrderText(o) == Text.Join(FieldsOf(ObOrderPositions(o)), ',')
  {
    var fields := FieldsOf(ObOrderPositions(o));
    assert Text.NatToString(1) == "1" && Text.NatToString(2) == "2";
    assert Text.NatToString(3) == "3" && Text.NatToString(4) == "4";
    assert Text.Join(fields[3..], ',') == fields[3];
    assert Text.Join(fields[2..], ',') == fields[2] + "," + fields[3] by {
      assert fields[2..][1..] == fields[3..];
    }
    assert Text.Join(fields[1..], ',') == fields[1] + "," + fields[2] + "," + fields[3] by {
      assert fields[1..][1..] == fields[2..];
    }
  }

  /** Converting the printed form of natural numbers gives the numbers back. */
  lemma {:induction false} ParseFieldsOfNumbers(ps: seq<nat>)
    ensures ParseFields(FieldsOf(ps)).Some?
    ensures forall i :: 0 <= i < |ps| ==> ParseFields(FieldsOf(ps)).value[i] == ps[i]
  {
    if |ps| > 0 {
      ParseFieldsOfNumbers(ps[1..]);
      Text.ParseIntOfNatToString(ps[0]);
      assert FieldsOf(ps)[1..] == FieldsOf(ps[1..]);
      var r := ParseFields(FieldsOf(ps));
      var t := ParseFields(FieldsOf(ps[1..]));
      assert r.value == [ps[0] as int] + t.value;
      forall i | 1 <= i < |ps| ensures r.value[i] == ps[i] {
        assert r.value[i] == t.value[i - 1];
      }
    }
  }

  lemma DigitsHaveNoComma(s: string)
    requires Text.AllDigits(s)
    ensures ',' !in s
  {
  }

  // ------------------------------------------------------------ the scene

  /** The scene variables the core reads and writes. */
  datatype Scene = Scene(
    cursor: Vec,             // scene.cursor.location
    cursorRotation: Vec,     // scene.cursor.rotation_euler
    pivot: Vec,              // pdt_pivotloc
    pivotScale: Vec,         // pdt_pivotscale
    deltaX: real, deltaY: real, deltaZ: real,
    distance: real,
    angle: real,             // degrees, declared range [-180, 180]
    percent: real,
    plane: Plane,
    select: MoveMode,
    operate: Oper,
    taper: TaperAxes,
    flipAngle: bool,
    flipPercent: bool,
    extend: bool,
    oborder: ObOrder,
    libMode: LibMode,
    obSearch: string, coSearch: string, maSearch: string,
    vrotAngle: real,         // declared range [-180, 180]
    pivotSize: real,         // declared range [0.4, 2]
    pivotWidth: int,         // declared range [1, 5]
    pivotAngle: real,        // declared range [-180, 180]
    pivotDistance: real,     // declared minimum 0
    pivotAlpha: real,        // declared range [0.2, 1]
    filletRadius: real,      // declared minimum 0
    filletSegments: int,     // declared minimum 1
    filletProfile: real,     // declared range [0, 1]
    filletVerts: bool,
    command: string,         // pdt_command
    error: Option<Messages.Message>  // pdt_error; None is the empty string
  )

  /** The default value of every registered property. */
  const Defaults: Scene := Scene(
    Zero, Zero, Zero, Vec(1.0, 1.0, 1.0),
    0.0, 0.0, 0.0, 0.0, 0.0, 0.0,
    XZ, SEL, CU, RXMY, false, false, false, O1234, OBJECTS,
    "", "", "",
    10.0, 1.0, 2, 0.0, 0.0, 0.6,
    1.0, 4, 0.5, true,
    "CA0,0,0", None)

  /** Every value lies in the range its property declares. */
  predicate WithinDeclaredBounds(s: Scene)
  {
    -180.0 <= s.angle <= 180.0
    && -180.0 <= s.vrotAngle <= 180.0
    && 0.4 <= s.pivotSize <= 2.0
    && 1 <= s.pivotWidth <= 5
    && -180.0 <= s.pivotAngle <= 180.0
    && 0.0 <= s.pivotDistance
    && 0.2 <= s.pivotAlpha <= 1.0
    && 0.0 <= s.filletRadius
    && 1 <= s.filletSegments
    && 0.0 <= s.filletProfile <= 1.0
  }

  lemma DefaultsWithinBounds()
    ensures WithinDeclaredBounds(Defaults)
  {
  }

  /** Blender's clamping of a value written to a property with a declared range. */
  function Clamp(x: real, lo: real, hi: real): (r: real)
    requires lo <= hi
    ensures lo <= r <= hi
    ensures lo <= x <= hi ==> r == x
    ensures x < lo ==> r == lo
    ensures x > hi ==> r == hi
  {
    if x < lo then lo else if x > hi then hi else x
  }

  /** `scene.pdt_angle = a`. */
  function AssignAngle(s: Scene, a: real): (t: Scene)
    ensures t == s.(angle := t.angle)
    ensures -180.0 <= a <= 180.0 ==> t.angle == a
    ensures WithinDeclaredBounds(s) ==> WithinDeclaredBounds(t)
  {
    s.(angle := Clamp(a, -180.0, 180.0))
  }

  // ---------------------------------------------------- parts-library lists

  /** The names stored in the parts library file. */
  datatype Library = Library(objects: seq<string>, collections: seq<string>, materials: seq<string>)

  /** One drop-down entry: identifier, display name and description. */
  datatype EnumItem = EnumItem(identifier: string, name: string, description: string)

  const MissingItem: EnumItem := EnumItem("MISSING", "Library is Missing", "")

  /** `[ob for ob in names if search in ob]`. */
  function FilterNames(names: seq<string>, search: string): (r: seq<string>)
    ensures |r| <= |names|
    ensures forall x :: x in r <==> x in names && Text.Contains(x, search)
  {
    if |names| == 0 then []
    else (if Text.Contains(names[0], search) then [names[0]] else []) + FilterNames(names[1..], search)
  }

  /** Every search string, including the empty one, keeps every name it occurs in. */
  lemma {:induction false} FilterEmptyKeepsAll(names: seq<string>)
    ensures FilterNames(names, "") == names
  {
    if |names| > 0 {
      Text.EmptyOccursEverywhere(names[0]);
      FilterEmptyKeepsAll(names[1..]);
      assert names == [names[0]] + names[1..];
    }
  }

  /** The filter keeps the library's order: filtering a concatenation filters each part. */
  lemma {:induction false} FilterAppend(a: seq<string>, b: seq<string>, search: string)
    ensures FilterNames(a + b, search) == FilterNames(a, search) + FilterNames(b, search)
    decreases |a|
  {
    if |a| > 0 {
      assert (a + b)[1..] == a[1..] + b;
      FilterAppend(a[1..], b, search);
    } else {
      assert a + b == b;
    }
  }

  function Items(names: seq<string>): (r: seq<EnumItem>)
    ensures |r| == |names|
    ensures forall i :: 0 <= i < |r| ==> r[i] == EnumItem(names[i], names[i], "")
  {
    seq(|names|, i requires 0 <= i < |names| => EnumItem(names[i], names[i], ""))
  }

  /**
   The body shared by `enumlist_objects`, `enumlist_collections` and
   `enumlist_materials`: `names` is `None` when the library file is missing.
   */
  function EnumList(names: Option<seq<string>>, search: string): (r: seq<EnumItem>)
    ensures names.None? ==> r == [MissingItem]
    ensures names.Some? ==> r == Items(FilterNames(names.value, search))
  {
    if names.None? then [MissingItem]
    else if |search| == 0 then
      // the shortcut for an empty search lists what the filter would keep
      FilterEmptyKeepsAll(names.value);
      Items(names.value)
    else Items(FilterNames(names.value, search))
  }

  function LibraryObjects(lib: Option<Library>): Option<seq<string>>
  {
    if lib.Some? then Some(lib.value.objects) else None
  }

  function LibraryCollections(lib: Option<Library>): Option<seq<string>>
  {
    if lib.Some? then Some(lib.value.collections) else None
  }

  function LibraryMaterials(lib: Option<Library>): Option<seq<string>>
  {
    if lib.Some? then Some(lib.value.materials) else None
  }

  /** `enumlist_objects`: the library's objects filtered by `pdt_obsearch`. */
  function EnumObjects(s: Scene, lib: Option<Library>): seq<EnumItem>
  {
    EnumList(LibraryObjects(lib), s.obSearch)
  }

  /** `enumlist_collections`: the library's collections filtered by `pdt_cosearch`. */
  function EnumCollections(s: Scene, lib: Option<Library>): seq<EnumItem>
  {
    EnumList(LibraryCollections(lib), s.coSearch)
  }

  /** `enumlist_materials`: the library's materials filtered by `pdt_masearch`. */
  function EnumMaterials(s: Scene, lib: Option<Library>): seq<EnumItem>
  {
    EnumList(LibraryMaterials(lib), s.maSearch)
  }

  // ------------------------------------------------------- registration

  /** The operator and panel classes, in registration order. */
  const Classes: seq<string> := [
    "PDT_OT_PlacementAbs", "PDT_OT_PlacementDelta", "PDT_OT_PlacementDis",
    "PDT_OT_PlacementCen", "PDT_OT_PlacementPer", "PDT_OT_PlacementNormal",
    "PDT_OT_PlacementInt", "PDT_OT_JoinVerts", "PDT_OT_Angle2", "PDT_OT_Angle3",
    "PDT_OT_Origin", "PDT_OT_Taper", "PDT_OT_Fillet", "PDT_OT_ModalDrawOperator",
    "PDT_OT_ViewPlaneRotate", "PDT_OT_ViewPlaneScale", "PDT_OT_PivotToCursor",
    "PDT_OT_CursorToPivot", "PDT_OT_PivotSelected", "PDT_OT_PivotOrigin",
    "PDT_OT_PivotWrite", "PDT_OT_PivotRead", "PDT_OT_Append", "PDT_OT_Link",
    "PDT_OT_LibShow", "PDT_OT_ViewRot", "PDT_OT_vRotL", "PDT_OT_vRotR",
    "PDT_OT_vRotU", "PDT_OT_vRotD", "PDT_OT_vRoll", "PDT_OT_viso",
    "PDT_OT_IntersectAllEdges", "PDT_OT_LineOnBisection", "PDT_OT_EdgeToFace",
    "PDT_PT_Panel1", "PDT_PT_Panel4", "PDT_PT_Panel5", "PDT_PT_Panel2", "PDT_PT_Panel3"]

  function Reverse(s: seq<string>): (r: seq<string>)
    ensures |r| == |s|
    ensures forall k :: 0 <= k < |s| ==> r[k] == s[|s| - 1 - k]
  {
    if |s| == 0 then [] else Reverse(s[1..]) + [s[0]]
  }

  /** `register_class` over a sequence: each class is appended to the registry. */
  function RegisterAll(registry: seq<string>, classes: seq<string>): seq<string>
  {
    registry + classes
  }

  /** `unregister_class(cls)`: removes the most recent registration of `cls`. */
  function Unregister(registry: seq<string>, cls: string): (r: seq<string>)
    ensures |registry| > 0 && registry[|registry| - 1] == cls ==> r == registry[..|registry| - 1]
  {
    if |registry| == 0 then []
    else if registry[|registry| - 1] == cls then registry[..|registry| - 1]
    else Unregister(registry[..|registry| - 1], cls) + [registry[|registry| - 1]]
  }

  function UnregisterAll(registry: seq<string>, order: seq<string>): seq<string>
    decreases |order|
  {
    if |order| == 0 then registry else UnregisterAll(Unregister(registry, order[0]), order[1..])
  }

  /** `unregister()`: the classes in the reverse of registration order. */
  function UnregisterOrder(classes: seq<string>): seq<string>
  {
    Reverse(classes)
  }

  /**
   Unregistering in reverse order always removes the class registered last,
   so `unregister()` after `register()` leaves the registry as it was.
   */
  lemma {:induction false} UnregisterUndoesRegister(registry: seq<string>, classes: seq<string>)
    ensures UnregisterAll(RegisterAll(registry, classes), UnregisterOrder(classes)) == registry
    decreases |classes|
  {
    if |classes| > 0 {
      var n := |classes|;
      var last := classes[n - 1];
      var front := classes[..n - 1];
      var order := UnregisterOrder(classes);
      assert order[0] == last;
      assert order[1..] == Reverse(front) by {
        forall k | 0 <= k < n - 1 ensures order[1..][k] == Reverse(front)[k] { }
      }
      var reg := registry + classes;
      assert reg[|reg| - 1] == last;
      assert reg[..|reg| - 1] == registry + front;
      assert Unregister(reg, last) == registry + front;
      UnregisterUndoesRegister(registry, front);
    }
  }
}
