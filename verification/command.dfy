/**
 The command line of `pdt_command.py`: the string in `pdt_command` is an
 operation letter, a mode letter and comma-separated values, and
 `command_run` validates it letter by letter, normalises the values and
 dispatches to one of the edits.

 Three helpers the command line calls are not part of this model and arrive
 as parameters (`Hooks`): the `eval` of a Maths expression, `objCheck`
 (which vets the active object and may set an error) and `disAng` (which
 turns a distance and an angle into an offset vector).
 */
module CommandLine {
  import opened Vectors
  import opened Wrappers
  import Text
  import Messages
  import Properties
  import BMesh
  import Edits
  import W = World
  import PdtFunctions
  import Steps

  // ------------------------------------------------------------ letters

  /** The accepted operation letters. */
  const Operations: string := "cCdDeEfFgGnNmMpPvVsS?"

  /**
   The list of mode letters as the source spells it, and as it evidently
   means it. Two adjacent string literals without a comma between them are
   one literal, so the source's list holds "Eg" where "E" and "g" were meant.
   */
  function ModeLetters(reading: W.Reading): seq<string>
  {
    match reading
    case AsWritten =>
      ["a", "A", "d", "D", "e", "Eg", "G", "i", "I", "p", "P", "v", "V", "x", "X", "y", "Y", "z", "Z"]
    case Intended =>
      ["a", "A", "d", "D", "e", "E", "g", "G", "i", "I", "p", "P", "v", "V", "x", "X", "y", "Y", "z", "Z"]
  }

  /** `mode not in [...]` fails: the one-letter string is an entry of the list. */
  predicate ModeAccepted(c: char, reading: W.Reading)
  {
    [c] in ModeLetters(reading)
  }

  /** A one-letter string is in a list exactly when that letter is a one-letter entry. */
  lemma LetterInList(c: char, list: seq<string>, letters: string)
    requires forall k :: 0 <= k < |list| ==> (|list[k]| == 1 <==> exists j :: 0 <= j < |letters| && list[k] == [letters[j]])
    requires forall j :: 0 <= j < |letters| ==> [letters[j]] in list
    ensures [c] in list <==> c in letters
  {
    if [c] in list {
      var k :| 0 <= k < |list| && list[k] == [c];
      var j :| 0 <= j < |letters| && list[k] == [letters[j]];
      assert [c][0] == [letters[j]][0];
    }
    if c in letters {
      var j :| 0 <= j < |letters| && letters[j] == c;
      assert [letters[j]] in list;
    }
  }

  /** As written, the mode letters accepted are exactly these eighteen: "E" and "g" are missing. */
  lemma ModeLettersAsWritten(c: char)
    ensures ModeAccepted(c, W.AsWritten) <==> c in "aAdDeGiIpPvVxXyYzZ"
  {
    var list := ModeLetters(W.AsWritten);
    var letters := "aAdDeGiIpPvVxXyYzZ";
    forall k | 0 <= k < |list|
      ensures |list[k]| == 1 <==> exists j :: 0 <= j < |letters| && list[k] == [letters[j]]
    {
      if |list[k]| == 1 {
        var j := if k < 5 then k else k - 1;
        assert list[k] == [letters[j]];
      }
    }
    forall j | 0 <= j < |letters| ensures [letters[j]] in list {
      var k := if j < 5 then j else j + 1;
      assert list[k] == [letters[j]];
    }
    LetterInList(c, list, letters);
  }

  /** As intended, the mode letters are the twenty case variants of A D E G I P V X Y Z. */
  lemma ModeLettersIntended(c: char)
    ensures ModeAccepted(c, W.Intended) <==> c in "aAdDeEgGiIpPvVxXyYzZ"
  {
    var list := ModeLetters(W.Intended);
    var letters := "aAdDeEgGiIpPvVxXyYzZ";
    forall k | 0 <= k < |list|
      ensures |list[k]| == 1 <==> exists j :: 0 <= j < |letters| && list[k] == [letters[j]]
    {
      assert list[k] == [letters[k]];
    }
    forall j | 0 <= j < |letters| ensures [letters[j]] in list {
      assert list[j] == [letters[j]];
    }
    LetterInList(c, list, letters);
  }

  /**
   The missing comma: "E" and "g" alone are refused while "e" and "G" pass;
   read as intended, all four pass.
   */
  lemma MissingCommaDropsTwoLetters()
    ensures !ModeAccepted('E', W.AsWritten) && !ModeAccepted('g', W.AsWritten)
    ensures ModeAccepted('e', W.AsWritten) && ModeAccepted('G', W.AsWritten)
    ensures ModeAccepted('E', W.Intended) && ModeAccepted('g', W.Intended)
  {
    JoinedLettersRefused();
    CaseMatesAccepted();
    IntendedAcceptsBoth();
  }

  lemma JoinedLettersRefused()
    ensures !ModeAccepted('E', W.AsWritten) && !ModeAccepted('g', W.AsWritten)
  {
    ModeLettersAsWritten('E');
    ModeLettersAsWritten('g');
  }

  lemma CaseMatesAccepted()
    ensures ModeAccepted('e', W.AsWritten) && ModeAccepted('G', W.AsWritten)
  {
    ModeLettersAsWritten('e');
    ModeLettersAsWritten('G');
  }

  lemma IntendedAcceptsBoth()
    ensures ModeAccepted('E', W.Intended) && ModeAccepted('g', W.Intended)
  {
    ModeLettersIntended('E');
    ModeLettersIntended('g');
  }

  /** ASCII lower case. */
  function LowerChar(c: char): (d: char)
    ensures 'A' <= c <= 'Z' ==> 'a' <= d <= 'z' && d as int == c as int + 32
    ensures !('A' <= c <= 'Z') ==> d == c
  {
    if 'A' <= c <= 'Z' then (c as int + 32) as char else c
  }

  function Lower(s: string): (t: string)
    ensures |t| == |s|
    ensures forall i :: 0 <= i < |s| ==> t[i] == LowerChar(s[i])
  {
    seq(|s|, i requires 0 <= i < |s| => LowerChar(s[i]))
  }

  /** `cmd == "?" or cmd.lower() == "help"`. */
  predicate IsHelp(cmd: string)
  {
    cmd == "?" || Lower(cmd) == "help"
  }

  /** `cmd.lower() == "help"` holds exactly for the letters h, e, l, p in order, each in either case. */
  lemma HelpIgnoresCase(cmd: string)
    ensures Lower(cmd) == "help" <==>
      |cmd| == 4 && cmd[0] in "hH" && cmd[1] in "eE" && cmd[2] in "lL" && cmd[3] in "pP"
  {
    if |cmd| == 4 {
      var l := Lower(cmd);
      assert l == "help" <==> l[0] == 'h' && l[1] == 'e' && l[2] == 'l' && l[3] == 'p';
    }
  }

  // -------------------------------------------------------------- values

  /** `float(s)`, where the caller has made sure it parses. */
  function Num(s: string): real
  {
    match Text.ParseFloat(s)
    case Some(x) => x
    case None => 0.0
  }

  lemma ZeroParses()
    ensures Text.ParseFloat("0") == Some(0.0)
  {
    Text.StripOfUnpadded("0");
    assert Text.SignOf("0") == (1, "0");
    assert Text.ExponentMark("0") == 1;
    assert Text.PointMark("0") == 1;
    assert "0"[..1] == "0";
    assert Text.DigitsValue("0") == 0;
  }

  predicate AllFloats(vals: seq<string>)
  {
    forall k :: 0 <= k < |vals| ==> Text.ParseFloat(vals[k]).Some?
  }

  /** The loop that replaces each field `float()` refuses with "0", field by field. */
  function Normalise(fields: seq<string>): (r: seq<string>)
    ensures |r| == |fields|
  {
    seq(|fields|, k requires 0 <= k < |fields| => Keep(fields[k]))
  }

  /** One field of that loop: a field `float()` accepts is kept, any other becomes "0". */
  function Keep(x: string): (r: string)
    ensures Text.ParseFloat(x).Some? ==> r == x
    ensures Text.ParseFloat(x).None? ==> r == "0"
  {
    if Text.ParseFloat(x).Some? then x else "0"
  }

  /** After the loop every field parses, to its own value or, where it did not parse, to 0. */
  lemma NormaliseParses(fields: seq<string>)
    ensures AllFloats(Normalise(fields))
    ensures forall k :: 0 <= k < |fields| ==> Num(Normalise(fields)[k]) == Num(fields[k])
  {
    ZeroParses();
  }

  /** Normalising twice is normalising once. */
  lemma NormaliseIdempotent(fields: seq<string>)
    ensures Normalise(Normalise(fields)) == Normalise(fields)
  {
  }

  /** `Vector((float(vals[0]), float(vals[1]), float(vals[2])))`. */
  function ValsVec(vals: seq<string>): Vec
    requires |vals| == 3
  {
    Vec(Num(vals[0]), Num(vals[1]), Num(vals[2]))
  }

  // ------------------------------------------------------------- parsing

  /** How `command_run` reads the command string, before it touches anything. */
  datatype Parsed =
    | Help
    | TooShort
    | BadOperation
    | BadMode
    | Maths(mode: char, expr: string)
    | CoordLetter
    | Command(oper: char, mode: char, vals: seq<string>)

  function Parse(cmd: string, reading: W.Reading): (r: Parsed)
    ensures r.Help? <==> IsHelp(cmd)
    ensures r.TooShort? <==> !IsHelp(cmd) && |cmd| < 3
    ensures r.BadOperation? <==> !IsHelp(cmd) && |cmd| >= 3 && cmd[0] !in Operations
    ensures r.BadMode? <==> !IsHelp(cmd) && |cmd| >= 3 && cmd[0] in Operations && !ModeAccepted(cmd[1], reading)
    ensures r.Maths? ==> |cmd| >= 3 && r.mode == cmd[1] && r.expr == cmd[2..] && cmd[0] in "mM"
    ensures r.CoordLetter? ==> cmd[0] !in "mM" && cmd[1] in "xXyYzZ"
    ensures r.Command? ==>
      |cmd| >= 3 && r.oper == cmd[0] && r.mode == cmd[1]
      && r.oper in Operations && r.oper !in "mM" && r.mode !in "xXyYzZ" && ModeAccepted(r.mode, reading)
      && |r.vals| == Text.Count(cmd[2..], ',') + 1 && AllFloats(r.vals)
      && forall k :: 0 <= k < |r.vals| ==> Num(r.vals[k]) == Num(Text.Split(cmd[2..], ',')[k])
  {
    if IsHelp(cmd) then Help
    else if |cmd| < 3 then TooShort
    else if cmd[0] !in Operations then BadOperation
    else if !ModeAccepted(cmd[1], reading) then BadMode
    else if cmd[0] in "mM" then Maths(cmd[1], cmd[2..])
    else if cmd[1] in "xXyYzZ" then CoordLetter
    else
      NormaliseParses(Text.Split(cmd[2..], ','));
      Command(cmd[0], cmd[1], Normalise(Text.Split(cmd[2..], ',')))
  }

  /** The empty field is not a number to `float()`. */
  lemma EmptyIsNotFloat()
    ensures Text.ParseFloat("") == None
  {
    assert Text.Strip("") == "";
  }

  /** An empty field is replaced by "0", and "0" itself is kept: the two read alike. */
  lemma BlankFieldIsZero()
    ensures Keep("") == "0" && Keep("0") == "0"
  {
    EmptyIsNotFloat();
    ZeroParses();
  }

  /** A string that starts with an operation letter is never the help request. */
  lemma NotHelp(cmd: string)
    requires |cmd| >= 3 && cmd[0] in Operations
    ensures !IsHelp(cmd)
  {
    if |cmd| == 4 {
      assert Lower(cmd)[0] == LowerChar(cmd[0]);
    } else {
      assert |Lower(cmd)| != |"help"|;
    }
  }

  lemma AfterTwo(a: char, b: char, rest: string)
    ensures |[a, b] + rest| == |rest| + 2
    ensures ([a, b] + rest)[0] == a && ([a, b] + rest)[1] == b && ([a, b] + rest)[2..] == rest
  {
    assert |[a, b]| == 2;
  }

  /** A command string whose letters pass is split at its commas and normalised. */
  lemma ParseCommand(oper: char, mode: char, rest: string, reading: W.Reading)
    requires |rest| >= 1 && oper in Operations && oper !in "mM"
    requires ModeAccepted(mode, reading) && mode !in "xXyYzZ"
    ensures Parse([oper, mode] + rest, reading) == Command(oper, mode, Normalise(Text.Split(rest, ',')))
  {
    AfterTwo(oper, mode, rest);
    ParseLetters([oper, mode] + rest, reading);
  }

  /** The same, for the command string as a whole. */
  lemma ParseLetters(cmd: string, reading: W.Reading)
    requires |cmd| >= 3 && cmd[0] in Operations && cmd[0] !in "mM"
    requires ModeAccepted(cmd[1], reading) && cmd[1] !in "xXyYzZ"
    ensures Parse(cmd, reading) == Command(cmd[0], cmd[1], Normalise(Text.Split(cmd[2..], ',')))
  {
    NotHelp(cmd);
  }

  /** Each empty field written as "0". */
  function ZeroBlanks(fields: seq<string>): (r: seq<string>)
    ensures |r| == |fields|
    ensures forall k :: 0 <= k < |fields| ==> r[k] == (if fields[k] == "" then "0" else fields[k])
  {
    seq(|fields|, k requires 0 <= k < |fields| => if fields[k] == "" then "0" else fields[k])
  }

  /** Joining fields that are not all one empty field gives a non-empty string. */
  lemma JoinNotEmpty(fields: seq<string>)
    requires |fields| >= 1 && fields != [""]
    ensures |Text.Join(fields, ',')| >= 1
  {
  }

  /**
   Missing values are set to 0: a command whose comma-separated values leave
   gaps parses exactly as the same command with "0" written in every gap,
   and each gap becomes the value "0".
   */
  lemma MissingValuesAreZero(oper: char, mode: char, fields: seq<string>, reading: W.Reading)
    requires oper in Operations && oper !in "mM" && ModeAccepted(mode, reading) && mode !in "xXyYzZ"
    requires |fields| >= 1 && fields != [""]
    requires forall k :: 0 <= k < |fields| ==> ',' !in fields[k]
    ensures var r := Parse([oper, mode] + Text.Join(fields, ','), reading);
      r == Parse([oper, mode] + Text.Join(ZeroBlanks(fields), ','), reading)
      && r.Command? && |r.vals| == |fields|
      && forall k :: 0 <= k < |fields| && fields[k] == "" ==> r.vals[k] == "0"
  {
    var z := ZeroBlanks(fields);
    Text.SplitJoin(fields, ',');
    Text.SplitJoin(z, ',');
    BlankFieldIsZero();
    assert Normalise(fields) == Normalise(z) by {
      forall k | 0 <= k < |fields|
        ensures Normalise(fields)[k] == Normalise(z)[k]
      {
        if fields[k] == "" {
          assert z[k] == "0";
        }
      }
    }
    JoinNotEmpty(fields);
    JoinNotEmpty(z);
    ParseCommand(oper, mode, Text.Join(fields, ','), reading);
    ParseCommand(oper, mode, Text.Join(z, ','), reading);
  }

  /** Values that are all numbers reach the command exactly as typed. */
  lemma NumbersKeptVerbatim(oper: char, mode: char, fields: seq<string>, reading: W.Reading)
    requires oper in Operations && oper !in "mM" && ModeAccepted(mode, reading) && mode !in "xXyYzZ"
    requires |fields| >= 1 && AllFloats(fields)
    requires forall k :: 0 <= k < |fields| ==> ',' !in fields[k]
    ensures Parse([oper, mode] + Text.Join(fields, ','), reading) == Command(oper, mode, fields)
  {
    FloatsNotEmpty(fields);
    Text.SplitJoin(fields, ',');
    JoinNotEmpty(fields);
    ParseCommand(oper, mode, Text.Join(fields, ','), reading);
    NormaliseKeepsFloats(fields);
  }

  lemma FloatsNotEmpty(fields: seq<string>)
    requires |fields| >= 1 && AllFloats(fields)
    ensures fields != [""]
  {
    EmptyIsNotFloat();
    assert Text.ParseFloat(fields[0]).Some?;
  }

  /** Normalising changes nothing when every field is already a number. */
  lemma NormaliseKeepsFloats(fields: seq<string>)
    requires AllFloats(fields)
    ensures Normalise(fields) == fields
  {
    assert forall k :: 0 <= k < |fields| ==> Normalise(fields)[k] == fields[k];
  }

  /** `C` is an operation, not maths, and `A` a mode letter, not a coordinate. */
  lemma CursorAbsoluteLetters(reading: W.Reading)
    ensures 'C' in Operations && 'C' !in "mM" && ModeAccepted('A', reading) && 'A' !in "xXyYzZ"
  {
    ModeLettersAsWritten('A');
    ModeLettersIntended('A');
  }

  /** The documented example: `CA,,3` is read as `CA0,0,3`. */
  lemma DocumentedExample(reading: W.Reading)
    ensures Parse("CA,,3", reading) == Parse("CA0,0,3", reading)
  {
    var fields := ["", "", "3"];
    assert "CA,,3" == ['C', 'A'] + ",,3";
    assert "CA0,0,3" == ['C', 'A'] + "0,0,3";
    assert ZeroBlanks(fields) == ["0", "0", "3"];
    assert Text.Join(fields, ',') == ",,3";
    assert Text.Join(["0", "0", "3"], ',') == "0,0,3";
    CursorAbsoluteLetters(reading);
    MissingValuesAreZero('C', 'A', fields, reading);
  }

  // --------------------------------------------------------------- hooks

  /** What `eval(exp)` does: gives a number, raises `ValueError`, or raises something else. */
  datatype EvalResult = EvalNumber(value: real) | EvalValueError | EvalRaises

  /**
   The helpers outside this model. `objCheck` answers whether the active
   object is usable and which error, if any, it set; `disAng` gives the
   offset for a distance and an angle.
   */
  datatype Hooks = Hooks(
    eval: string -> EvalResult,
    objCheck: (Option<W.Obj>, char) -> (bool, Option<Messages.Message>),
    disAng: (seq<string>, bool, Properties.Plane, Properties.Scene) -> Vec)

  // ------------------------------------------------------------- outcomes

  /**
   `scene.pdt_error = msg`, the popup, then `return`: the error is the only
   scene variable written, the popup the only report added, and no object,
   selection or host call changes.
   */
  function Fail(w: W.World, m: Messages.Message): (r: W.Outcome)
    ensures r.status == W.NoReturn
    ensures r.world.scene.error == Some(m) && r.world.scene == w.scene.(error := r.world.scene.error)
    ensures r.world.reports == w.reports + [W.ErrorPopup(m)]
    ensures r.world.objects == w.objects && r.world.selected == w.selected
    ensures r.world.active == w.active && r.world.host == w.host
  {
    W.Outcome(W.SetError(w, m), W.NoReturn)
  }

  /** A `return` with nothing written: the world is left exactly as it was. */
  function Quiet(w: W.World): (r: W.Outcome)
    ensures r.status == W.NoReturn && r.world == w
  {
    W.Outcome(w, W.NoReturn)
  }

  /** The error for a value count the mode does not take. */
  function ArityMessage(mode: char): Messages.Message
  {
    if mode in "iI" then Messages.Plain(Messages.Bad2Vals)
    else if mode in "pP" then Messages.Plain(Messages.Bad1Vals)
    else Messages.Plain(Messages.Bad3Vals)
  }

  /** Values each coordinate mode takes: three for A and D, two for I, one for P. */
  function Arity(mode: char): nat
  {
    if mode in "iI" then 2 else if mode in "pP" then 1 else 3
  }

  function NonValid(mode: char, oper: char): Messages.Message
  {
    Messages.Message(Messages.NonValid, [mode, ' ', oper])
  }

  /** The offset a D or I command describes. */
  function Offset(w: W.World, mode: char, vals: seq<string>, hooks: Hooks): Vec
    requires mode in "dD" ==> |vals| == 3
  {
    if mode in "dD" then ValsVec(vals)
    else hooks.disAng(vals, w.scene.flipAngle, w.scene.plane, w.scene)
  }

  /** The active object as the command line holds it, if it has fetched it. */
  predicate Holds(w: W.World, ctx: Option<W.Obj>)
  {
    W.ValidWorld(w) && (ctx.Some? ==> W.Active(w) == ctx)
  }

  // --------------------------------------------------------------- maths

  /** The scene variable a Maths command writes. */
  datatype Slot = SlotX | SlotY | SlotZ | SlotDistance | SlotAngle | SlotPercent

  function MathsSlot(mode: char): (r: Option<Slot>)
    ensures r.None? <==> mode !in "xXyYzZdDaApP"
  {
    if mode in "xX" then Some(SlotX)
    else if mode in "yY" then Some(SlotY)
    else if mode in "zZ" then Some(SlotZ)
    else if mode in "dD" then Some(SlotDistance)
    else if mode in "aA" then Some(SlotAngle)
    else if mode in "pP" then Some(SlotPercent)
    else None
  }

  function Read(s: Properties.Scene, slot: Slot): real
  {
    match slot
    case SlotX => s.deltaX
    case SlotY => s.deltaY
    case SlotZ => s.deltaZ
    case SlotDistance => s.distance
    case SlotAngle => s.angle
    case SlotPercent => s.percent
  }

  /**
   The assignment to one scene variable. `pdt_angle` is declared with the
   range [-180, 180], which Blender enforces by clamping.
   */
  function Store(s: Properties.Scene, slot: Slot, x: real): (t: Properties.Scene)
    ensures slot != SlotAngle ==> Read(t, slot) == x
    ensures slot == SlotAngle ==> -180.0 <= Read(t, slot) <= 180.0
    ensures slot == SlotAngle && -180.0 <= x <= 180.0 ==> Read(t, slot) == x
    ensures forall o :: o != slot ==> Read(t, o) == Read(s, o)
    ensures t == s.(deltaX := t.deltaX, deltaY := t.deltaY, deltaZ := t.deltaZ,
                    distance := t.distance, angle := t.angle, percent := t.percent)
    ensures Properties.WithinDeclaredBounds(s) ==> Properties.WithinDeclaredBounds(t)
  {
    match slot
    case SlotX => s.(deltaX := x)
    case SlotY => s.(deltaY := x)
    case SlotZ => s.(deltaZ := x)
    case SlotDistance => s.(distance := x)
    case SlotAngle => Properties.AssignAngle(s, x)
    case SlotPercent => s.(percent := x)
  }

  /** A Maths command: a comma sets an error but evaluation goes on. */
  function RunMaths(w: W.World, mode: char, expr: string, hooks: Hooks): (r: W.Outcome)
    ensures r.status == W.NoReturn || r.status == W.Raised(W.ForeignFault)
    ensures r.world.objects == w.objects && r.world.host == w.host
  {
    var w1 := if ',' in expr then W.SetError(w, Messages.Plain(Messages.NoCommas)) else w;
    match hooks.eval(expr)
    case EvalValueError => Fail(w1, Messages.Plain(Messages.BadMaths))
    case EvalRaises => W.Crash(w1, W.ForeignFault)
    case EvalNumber(x) =>
      match MathsSlot(mode)
      case Some(slot) => Quiet(w1.(scene := Store(w1.scene, slot, x)))
      case None => Fail(w1, Messages.Message(Messages.NonValid, [mode] + " Maths"))
  }

  // ------------------------------------------------------ cursor and pivot

  /** The cursor (`C`) or the pivot point (`P`). */
  function Target(w: W.World, cursor: bool): Vec
  {
    if cursor then w.scene.cursor else w.scene.pivot
  }

  function PlaceTarget(w: W.World, cursor: bool, p: Vec): (r: W.World)
    ensures Target(r, cursor) == p && Target(r, !cursor) == Target(w, !cursor)
  {
    if cursor then w.(scene := w.scene.(cursor := p)) else w.(scene := w.scene.(pivot := p))
  }

  /** `C` and `P`: move the cursor or the pivot point. */
  function RunCursor(w: W.World, ctx: Option<W.Obj>, oper: char, mode: char, vals: seq<string>, hooks: Hooks): (r: W.Outcome)
    requires Holds(w, ctx) && |vals| >= 1
    ensures r.world.objects == w.objects && r.world.host == w.host
    ensures r.status.NoReturn? || r.status.Raised?
    ensures ctx.Some? ==> r.status != W.Raised(W.UnboundLocal("obj"))
  {
    var cursor := oper in "cC";
    if mode in "aA" then
      if |vals| != 3 then Fail(w, Messages.Plain(Messages.Bad3Vals))
      else Quiet(PlaceTarget(w, cursor, ValsVec(vals)))
    else if mode in "dDiI" then
      if |vals| != Arity(mode) then Fail(w, ArityMessage(mode))
      else
        var d := Offset(w, mode, vals, hooks);
        if w.scene.select == Properties.REL then Quiet(PlaceTarget(w, cursor, Add(Target(w, cursor), d)))
        else match ctx
          case None => W.Crash(w, W.UnboundLocal("obj"))
          case Some(o) => CursorFrom(w, o, cursor, d)
    else if mode in "pP" then
      if |vals| != 1 then Fail(w, Messages.Plain(Messages.Bad1Vals))
      else match ctx
        case None => W.Crash(w, W.UnboundLocal("obj"))
        case Some(o) => CursorPercent(w, o, oper, Num(vals[0]))
    else Fail(w, NonValid(mode, oper))
  }

  /**
   `CD` and `CI` with selection mode SEL: the target goes to `d` from the
   newest vertex (Edit mode) or the active object (Object mode). An empty
   history raises `IndexError`; a newest edge or face has no `.co`.
   */
  function CursorFrom(w: W.World, o: W.Obj, cursor: bool, d: Vec): (r: W.Outcome)
    requires W.ValidWorld(w) && W.Active(w) == Some(o)
    ensures r.world.objects == w.objects && r.world.host == w.host
    ensures r.status.NoReturn? || r.status == W.Raised(W.IndexFault) || r.status == W.Raised(W.AttributeFault)
    ensures r.status == W.Raised(W.IndexFault) <==> o.mode == W.EditMode && |o.mesh.history| == 0
  {
    match o.mode
    case EditMode =>
      if |o.mesh.history| == 0 then W.Crash(w, W.IndexFault)
      else (match BMesh.Newest(o.mesh, 0)
        case VertElem(v) => Quiet(PlaceTarget(w, cursor, Add(Add(o.mesh.co[v], o.location), d)))
        case _ => W.Crash(w, W.AttributeFault))
    case ObjectMode => Quiet(PlaceTarget(w, cursor, Add(o.location, d)))
    case OtherMode(_) => Quiet(w)
  }

  /** `CP` and `PP`: the target to the percentage point, relative to the active object in Edit mode. */
  function CursorPercent(w: W.World, o: W.Obj, oper: char, percent: real): (r: W.Outcome)
    requires W.ValidWorld(w) && W.Active(w) == Some(o)
    ensures r.world.objects == w.objects && r.world.host == w.host
    ensures r.status.NoReturn? || r.status.Raised?
    ensures var g := PdtFunctions.GetPercent(w, o, w.scene.flipPercent, percent, [oper]);
      r.status.Raised? <==> g.PercentFault?
    ensures var g := PdtFunctions.GetPercent(w, o, w.scene.flipPercent, percent, [oper]);
      r.status.Raised? ==> r.status.fault == g.fault
  {
    var cursor := oper in "cC";
    match PdtFunctions.GetPercent(w, o, w.scene.flipPercent, percent, [oper])
    case PercentError(w2) => Quiet(w2)
    case PercentFault(f) => W.Crash(w, f)
    case PercentOk(v) =>
      match o.mode
      case EditMode => Quiet(PlaceTarget(w, cursor, Add(o.location, v)))
      case ObjectMode => Quiet(PlaceTarget(w, cursor, v))
      case OtherMode(_) => Quiet(w)
  }

  // ---------------------------------------------------------------- grab

  /** `G`: move the selected vertices or objects. */
  function RunGrab(w: W.World, ctx: Option<W.Obj>, oper: char, mode: char, vals: seq<string>, hooks: Hooks, reading: W.Reading): (r: W.Outcome)
    requires Holds(w, ctx) && |vals| >= 1
    ensures W.ValidWorld(r.world)
    ensures r.status.NoReturn? || r.status.Raised?
    ensures ctx.Some? ==> r.status != W.Raised(W.UnboundLocal("obj"))
  {
    if mode in "aAdDiI" then
      if |vals| != Arity(mode) then Fail(w, ArityMessage(mode))
      else match ctx
        case None => W.Crash(w, W.UnboundLocal("obj"))
        case Some(o) =>
          var d := if mode in "aA" then ValsVec(vals) else Offset(w, mode, vals, hooks);
          match o.mode
          case EditMode => GrabVerts(w, o, mode, d)
          case ObjectMode => GrabObjects(w, o, mode, d)
          case OtherMode(_) => Quiet(w)
    else if mode in "pP" then
      match ctx
      case None => W.Crash(w, W.UnboundLocal("obj"))
      case Some(o) =>
        if o.mode != W.ObjectMode then Quiet(w)
        else if |vals| != 1 then Fail(w, Messages.Plain(Messages.Bad1Vals))
        else GrabPercent(w, o, oper, Num(vals[0]), reading)
    else Fail(w, NonValid(mode, oper))
  }

  /** `G` in Edit mode: the selected vertices go to `d` (absolute) or move by it. */
  function GrabVerts(w: W.World, o: W.Obj, mode: char, d: Vec): (r: W.Outcome)
    requires W.ValidWorld(w) && W.Active(w) == Some(o)
    ensures W.ValidWorld(r.world)
    ensures r.status.NoReturn?
  {
    var verts := BMesh.SelectedVerts(o.mesh);
    if mode in "aA" then
      if |verts| == 0 then Fail(w, Messages.Plain(Messages.NoSelGeom))
      else
        var m1 := BMesh.SetCoAll(o.mesh, verts, Sub(d, o.location));
        Quiet(W.CallHost(W.SetActiveMesh(w, BMesh.ClearHistory(m1)),
                         W.RemoveDoubles(w.active.value, BMesh.SelectedVerts(m1), 0.0001)))
    else if mode in "iI" && |verts| == 0 then Fail(w, Messages.Plain(Messages.NoSelGeom))
    else Quiet(W.SetActiveMesh(w, BMesh.ClearHistory(BMesh.TranslateAll(o.mesh, verts, d))))
  }

  /** `G` in Object mode: the selected objects go to `d`, to the active object's location plus `d`, or move by `d`. */
  function GrabObjects(w: W.World, o: W.Obj, mode: char, d: Vec): (r: W.Outcome)
    requires W.ValidWorld(w)
    ensures W.ValidWorld(r.world) && r.status.NoReturn?
  {
    if mode in "aA" then Quiet(W.MoveSelectedObjects(w, d))
    else if mode in "dD" then Quiet(W.MoveSelectedObjects(w, Add(o.location, d)))
    else Quiet(W.ShiftSelectedObjects(w, d))
  }

  /** `GP`: the active object to the percentage point, where the source names an unbound `ob`. */
  function GrabPercent(w: W.World, o: W.Obj, oper: char, percent: real, reading: W.Reading): (r: W.Outcome)
    requires W.ValidWorld(w) && W.Active(w) == Some(o) && o.mode == W.ObjectMode
    ensures W.ValidWorld(r.world)
    ensures r.status.NoReturn? || r.status.Raised?
    ensures r.status != W.Raised(W.UnboundLocal("obj"))
  {
    match PdtFunctions.GetPercent(w, o, w.scene.flipPercent, percent, [oper])
    case PercentError(w2) => Quiet(w2)
    case PercentFault(f) => W.Crash(w, f)
    case PercentOk(v) =>
      match reading
      case AsWritten => W.Crash(w, W.UnboundLocal("ob"))
      case Intended => Quiet(W.SetActive(w, o.(location := v)))
  }

  // ---------------------------------------------------------- new vertex

  /** `N`: add a vertex and select it alone. */
  function RunNew(w: W.World, ctx: Option<W.Obj>, oper: char, mode: char, vals: seq<string>, hooks: Hooks): (r: W.Outcome)
    requires Holds(w, ctx) && |vals| >= 1
    ensures W.ValidWorld(r.world)
    ensures r.world.host == w.host
    ensures r.status.NoReturn? || r.status.Raised?
    ensures ctx.Some? ==> r.status != W.Raised(W.UnboundLocal("obj"))
  {
    match ctx
    case None => W.Crash(w, W.UnboundLocal("obj"))
    case Some(o) =>
      if o.mode != W.EditMode then Fail(w, Messages.Plain(Messages.AddVEdit))
      else if mode in "aAdDiIpP" && |vals| != Arity(mode) then Fail(w, ArityMessage(mode))
      else if mode in "aA" then
        Quiet(W.SetActiveMesh(w, Edits.NewVertexAlone(o.mesh, Sub(ValsVec(vals), o.location))))
      else if mode in "dDiI" then
        var d := Offset(w, mode, vals, hooks);
        if |o.mesh.history| == 0 then W.Crash(w, W.IndexFault)
        else (match BMesh.Newest(o.mesh, 0)
          case VertElem(v) => Quiet(W.SetActiveMesh(w, Edits.NewVertexAlone(o.mesh, Add(o.mesh.co[v], d))))
          case _ => W.Crash(w, W.AttributeFault))
      else if mode in "pP" then
        match PdtFunctions.GetPercent(w, o, w.scene.flipPercent, Num(vals[0]), [oper])
        case PercentError(w2) => W.Crash(w2, W.TypeFault)
        case PercentFault(f) => W.Crash(w, f)
        case PercentOk(v) => Quiet(W.SetActiveMesh(w, Edits.NewVertexAlone(o.mesh, v)))
      else Fail(w, NonValid(mode, oper))
  }

  // --------------------------------------------------------------- split

  /** The selection checks `SD`, `SI` and `SP` make before subdividing. */
  function SplitChecks(w: W.World, o: W.Obj): Option<Messages.Message>
  {
    var edges := BMesh.SelectedEdges(o.mesh);
    if |BMesh.SelectedFaces(o.mesh)| != 0 then Some(Messages.Plain(Messages.FaceSel))
    else if |edges| < 1 then Some(Messages.Counted(Messages.Sel1EdgeM, |edges|))
    else None
  }

  /** `S`: split the selected edges. */
  function RunSplit(w: W.World, ctx: Option<W.Obj>, oper: char, mode: char, vals: seq<string>, hooks: Hooks): (r: W.Outcome)
    requires Holds(w, ctx) && |vals| >= 1
    ensures W.ValidWorld(r.world)
    ensures r.status.NoReturn? || r.status.Raised?
    ensures ctx.Some? ==> r.status != W.Raised(W.UnboundLocal("obj"))
  {
    match ctx
    case None => W.Crash(w, W.UnboundLocal("obj"))
    case Some(o) =>
      var edges := BMesh.SelectedEdges(o.mesh);
      var index := w.active.value;
      if o.mode != W.EditMode then Fail(w, Messages.Plain(Messages.SplitEdit))
      else if mode in "aAdDiIpP" && |vals| != Arity(mode) then Fail(w, ArityMessage(mode))
      else if mode in "aA" then
        if |edges| != 1 then Fail(w, Messages.Counted(Messages.Sel1Edge, |edges|))
        else Quiet(Steps.Subdivided(w, W.SubdividePlace(index, edges, Sub(ValsVec(vals), o.location))))
      else if mode in "dDiI" then
        var d := Offset(w, mode, vals, hooks);
        match SplitChecks(w, o)
        case Some(m) => Fail(w, m)
        case None => Quiet(Steps.Subdivided(w, W.SubdivideOffset(index, edges, d)))
      else if mode in "pP" then
        match PdtFunctions.GetPercent(w, o, w.scene.flipPercent, Num(vals[0]), [oper])
        case PercentError(w2) => Quiet(w2)
        case PercentFault(f) => W.Crash(w, f)
        case PercentOk(v) =>
          match SplitChecks(w, o)
          case Some(m) => Fail(w, m)
          case None => Quiet(Steps.Subdivided(w, W.SubdividePlace(index, edges, v)))
      else Fail(w, NonValid(mode, oper))
  }

  // ----------------------------------------------------- extrude vertices

  /** `V`: extrude the selected vertices, or fan them into a new vertex. */
  function RunExtrudeVerts(w: W.World, ctx: Option<W.Obj>, oper: char, mode: char, vals: seq<string>, hooks: Hooks): (r: W.Outcome)
    requires Holds(w, ctx) && |vals| >= 1
    ensures W.ValidWorld(r.world)
    ensures r.status.NoReturn? || r.status.Raised?
    ensures ctx.Some? ==> r.status != W.Raised(W.UnboundLocal("obj"))
  {
    match ctx
    case None => W.Crash(w, W.UnboundLocal("obj"))
    case Some(o) =>
      var verts := BMesh.SelectedVerts(o.mesh);
      if o.mode != W.EditMode then Fail(w, Messages.Plain(Messages.ExtEdit))
      else if mode in "aAdDiI" && |vals| != Arity(mode) then Fail(w, ArityMessage(mode))
      else if mode in "aA" then ExtrudeToPoint(w, o, Sub(ValsVec(vals), o.location))
      else if mode in "dDiI" then
        if |verts| == 0 then Fail(w, Messages.Plain(Messages.NoSelGeom))
        else ExtrudeBy(w, o, Offset(w, mode, vals, hooks))
      else if mode in "pP" then ExtrudePercent(w, o, oper, Num(vals[0]))
      else Fail(w, NonValid(mode, oper))
  }

  /** `VA`: one new vertex at `p` joined to every selected vertex, then doubles removed. */
  function ExtrudeToPoint(w: W.World, o: W.Obj, p: Vec): (r: W.Outcome)
    requires W.ValidWorld(w) && W.Active(w) == Some(o)
    ensures W.ValidWorld(r.world) && r.status.NoReturn?
  {
    var verts := BMesh.SelectedVerts(o.mesh);
    Edits.FanToNewValid(o.mesh, verts, p);
    var m1 := Edits.FanToNew(o.mesh, verts, p);
    Quiet(W.CallHost(W.SetActiveMesh(w, BMesh.ClearHistory(m1)),
                     W.RemoveDoubles(w.active.value, BMesh.SelectedVerts(m1), 0.0001)))
  }

  /** `VD` and `VI`: each selected vertex extruded by `d`. */
  function ExtrudeBy(w: W.World, o: W.Obj, d: Vec): (r: W.Outcome)
    requires W.ValidWorld(w) && W.Active(w) == Some(o)
    ensures W.ValidWorld(r.world) && r.status.NoReturn?
  {
    var verts := BMesh.SelectedVerts(o.mesh);
    Edits.ExtrudeEachValid(o.mesh, verts, d);
    Quiet(W.SetActiveMesh(w, BMesh.ClearHistory(Edits.ExtrudeEach(o.mesh, verts, d))))
  }

  /**
   `VP`: a new vertex at the percentage point, joined to every selected
   vertex or to the newest one. Without `pdt_extend` the vertex is made
   before the history is read, so an empty or non-vertex history raises
   with the vertex already in the mesh.
   */
  function ExtrudePercent(w: W.World, o: W.Obj, oper: char, percent: real): (r: W.Outcome)
    requires W.ValidWorld(w) && W.Active(w) == Some(o) && o.mode == W.EditMode
    ensures W.ValidWorld(r.world)
    ensures r.status.NoReturn? || r.status.Raised?
    ensures r.status != W.Raised(W.UnboundLocal("obj"))
    ensures var pc := PdtFunctions.GetPercent(w, o, w.scene.flipPercent, percent, [oper]);
      pc.PercentOk? && !w.scene.extend && (|o.mesh.history| == 0 || !BMesh.Newest(o.mesh, 0).VertElem?) ==>
        r.status == W.Raised(if |o.mesh.history| == 0 then W.IndexFault else W.TypeFault)
        && W.ActiveMeshIs(w, r.world, o.mesh.(co := o.mesh.co + [pc.point]))
  {
    var verts := BMesh.SelectedVerts(o.mesh);
    match PdtFunctions.GetPercent(w, o, w.scene.flipPercent, percent, [oper])
    case PercentFault(f) => W.Crash(w, f)
    case PercentError(w2) =>
      if |verts| == 0 then Fail(w2, Messages.Plain(Messages.NoSelGeom)) else W.Crash(w2, W.TypeFault)
    case PercentOk(v) =>
      if |verts| == 0 then Fail(w, Messages.Plain(Messages.NoSelGeom))
      else if w.scene.extend then
        Edits.FanToNewValid(o.mesh, verts, v);
        Quiet(W.SetActiveMesh(w, BMesh.ClearHistory(Edits.FanToNew(o.mesh, verts, v))))
      else match Steps.JoinToNewest(o.mesh, v, true)
        case JoinFault(f, m1) => W.Crash(W.SetActiveMesh(w, m1), f)
        case Joined(m1) => Quiet(W.SetActiveMesh(w, BMesh.ClearHistory(m1)))
  }

  // ---------------------------------------------- extrude and duplicate

  /** `E` and `D`: extrude or duplicate the selected region and move the copy. */
  function RunRegion(w: W.World, ctx: Option<W.Obj>, oper: char, mode: char, vals: seq<string>, hooks: Hooks, duplicate: bool): (r: W.Outcome)
    requires Holds(w, ctx) && |vals| >= 1
    ensures W.ValidWorld(r.world)
    ensures r.status.NoReturn? || r.status.Raised?
    ensures ctx.Some? ==> r.status != W.Raised(W.UnboundLocal("obj"))
  {
    match ctx
    case None => W.Crash(w, W.UnboundLocal("obj"))
    case Some(o) =>
      if o.mode != W.EditMode then
        if duplicate then Fail(w, Messages.Plain(Messages.DupEdit)) else Quiet(w)
      else if mode in "dDiI" then
        if |vals| != Arity(mode) then Fail(w, ArityMessage(mode))
        else
          var d := Offset(w, mode, vals, hooks);
          var index := w.active.value;
          if |BMesh.SelectedVerts(o.mesh)| == 0 then Fail(w, Messages.Plain(Messages.NoSelGeom))
          else
            var call := if duplicate then W.DuplicateOffset(index, d) else W.ExtrudeOffset(index, d);
            Quiet(W.CallHost(W.SetActiveMesh(w, BMesh.ClearHistory(o.mesh)), call))
      else Fail(w, NonValid(mode, oper))
  }

  // -------------------------------------------------------------- fillet

  /** `segs`: the integer given, or 1 when it is below 1. */
  function FilletSegments(n: int): (s: int)
    ensures s >= 1
    ensures n >= 1 ==> s == n
  {
    if n < 1 then 1 else n
  }

  /**
   `prof`. As written, `float(v) in range(0, 1)` holds only for 0, and then
   the trailing comma makes a one-element tuple; every other value gives 0.5.
   As intended, a value inside the declared range [0, 1] is used as is.
   */
  function FilletProfile(p: real, reading: W.Reading): W.BevelProfile
  {
    match reading
    case AsWritten => if p == 0.0 then W.ProfileTuple(p) else W.ProfileValue(0.5)
    case Intended => if 0.0 <= p <= 1.0 then W.ProfileValue(p) else W.ProfileValue(0.5)
  }

  /** The profile as written ignores every in-range value but 0, and turns 0 into a tuple. */
  lemma FilletProfileAsWritten(p: real)
    ensures FilletProfile(p, W.AsWritten).ProfileTuple? <==> p == 0.0
    ensures FilletProfile(p, W.AsWritten).ProfileValue? ==> FilletProfile(p, W.AsWritten).p == 0.5
    ensures FilletProfile(0.25, W.AsWritten) == W.ProfileValue(0.5)
  {
  }

  /** The intended profile is a number in [0, 1], and it is the given value whenever that is in range. */
  lemma FilletProfileIntended(p: real)
    ensures FilletProfile(p, W.Intended).ProfileValue?
    ensures 0.0 <= FilletProfile(p, W.Intended).p <= 1.0
    ensures 0.0 <= p <= 1.0 ==> FilletProfile(p, W.Intended).p == p
  {
  }

  /** `F`: bevel the selection; mode V bevels vertices only. */
  function RunFillet(w: W.World, ctx: Option<W.Obj>, mode: char, vals: seq<string>, reading: W.Reading): (r: W.Outcome)
    requires Holds(w, ctx) && |vals| >= 1
    ensures r.world.objects == w.objects
    ensures r.status == W.NoReturn && |r.world.host| == |w.host| + 1 ==>
      var c := r.world.host[|w.host|];
      c.Bevel? && c.segments >= 1 && c.vertexOnly == (mode in "vV")
    ensures r.status.NoReturn? || r.status.Raised?
    ensures ctx.Some? ==> r.status != W.Raised(W.UnboundLocal("obj"))
  {
    match ctx
    case None => W.Crash(w, W.UnboundLocal("obj"))
    case Some(o) =>
      if o.mode != W.EditMode then Fail(w, Messages.Plain(Messages.FilEdit))
      else if |vals| != 3 then Fail(w, Messages.Plain(Messages.Bad3Vals))
      else if |BMesh.SelectedVerts(o.mesh)| == 0 then Fail(w, Messages.Plain(Messages.Sel1Vert))
      else match Text.ParseInt(vals[1])
        case None => W.Crash(w, W.ValueFault)
        case Some(n) =>
          Quiet(W.CallHost(w, W.Bevel(Num(vals[0]), FilletSegments(n), FilletProfile(Num(vals[2]), reading), mode in "vV")))
  }

  // ------------------------------------------------------------ dispatch

  /**
   Whether the command fetches the active object through `objCheck`. As
   written only modes other than A do, and S with A; every other A command
   that then reads `obj` fails. As intended every command that reads it does.
   */
  predicate NeedsObject(oper: char, mode: char, reading: W.Reading)
  {
    match reading
    case AsWritten => mode !in "aA" || oper in "sS"
    case Intended => mode !in "aA" || oper !in "cCpP?"
  }

  function Dispatch(w: W.World, ctx: Option<W.Obj>, oper: char, mode: char, vals: seq<string>, hooks: Hooks, reading: W.Reading): (r: W.Outcome)
    requires Holds(w, ctx) && |vals| >= 1
    ensures r.status.NoReturn? || r.status.Raised?
    ensures ctx.Some? ==> r.status != W.Raised(W.UnboundLocal("obj"))
  {
    if oper in "cCpP" then RunCursor(w, ctx, oper, mode, vals, hooks)
    else if oper in "gG" then RunGrab(w, ctx, oper, mode, vals, hooks, reading)
    else if oper in "nN" then RunNew(w, ctx, oper, mode, vals, hooks)
    else if oper in "sS" then RunSplit(w, ctx, oper, mode, vals, hooks)
    else if oper in "vV" then RunExtrudeVerts(w, ctx, oper, mode, vals, hooks)
    else if oper in "eE" then RunRegion(w, ctx, oper, mode, vals, hooks, false)
    else if oper in "dD" then RunRegion(w, ctx, oper, mode, vals, hooks, true)
    else if oper in "fF" then RunFillet(w, ctx, mode, vals, reading)
    else Quiet(w)
  }

  /** A command with an operation other than Maths, after the letters passed. */
  function RunCommand(w: W.World, oper: char, mode: char, vals: seq<string>, hooks: Hooks, reading: W.Reading): (r: W.Outcome)
    requires W.ValidWorld(w) && |vals| >= 1
    ensures r.status.NoReturn? || r.status.Raised?
  {
    if NeedsObject(oper, mode, reading) then
      var obj := W.Active(w);
      var (good, err) := hooks.objCheck(obj, oper);
      var w1 := match err case Some(m) => W.SetError(w, m) case None => w;
      if obj.None? then W.Crash(w1, W.AttributeFault)
      else if obj.value.mode == W.EditMode && |obj.value.mesh.history| < 1 && oper in "cCnNpP" then
        Fail(w1, Messages.Plain(Messages.NoActVert))
      else if !good then Quiet(w1)
      else Dispatch(w1, obj, oper, mode, vals, hooks, reading)
    else Dispatch(w, None, oper, mode, vals, hooks, reading)
  }

  /** `command_run`: the command in `pdt_command` applied to the world. It never returns a status. */
  function Run(w: W.World, hooks: Hooks, reading: W.Reading): (r: W.Outcome)
    requires W.ValidWorld(w)
    ensures r.status.NoReturn? || r.status.Raised?
  {
    match Parse(w.scene.command, reading)
    case Help => Quiet(w)
    case TooShort => Fail(w, Messages.Plain(Messages.CharsNum))
    case BadOperation => Fail(w, Messages.Plain(Messages.BadFLetter))
    case BadMode => Fail(w, Messages.Plain(Messages.BadSLetter))
    case Maths(mode, expr) => RunMaths(w, mode, expr, hooks)
    case CoordLetter => Fail(w, Messages.Plain(Messages.BadCoordL))
    case Command(oper, mode, vals) => RunCommand(w, oper, mode, vals, hooks, reading)
  }
}

/**
 What `command_run` promises, stated over the model above.
 */
module CommandLineFacts {
  import opened Vectors
  import opened Wrappers
  import Messages
  import Properties
  import BMesh
  import W = World
  import PdtFunctions
  import opened CommandLine

  /** A command shorter than three characters sets the not-enough-characters error and nothing else. */
  lemma ShortCommandOnlySetsError(w: W.World, hooks: Hooks, reading: W.Reading)
    requires W.ValidWorld(w) && |w.scene.command| < 3 && !IsHelp(w.scene.command)
    ensures Run(w, hooks, reading) == W.Outcome(W.SetError(w, Messages.Plain(Messages.CharsNum)), W.NoReturn)
  {
  }

  /** An operation letter outside the list is refused before anything is read or written. */
  lemma BadOperationOnlySetsError(w: W.World, hooks: Hooks, reading: W.Reading)
    requires W.ValidWorld(w) && |w.scene.command| >= 3 && !IsHelp(w.scene.command)
    requires w.scene.command[0] !in Operations
    ensures Run(w, hooks, reading) == W.Outcome(W.SetError(w, Messages.Plain(Messages.BadFLetter)), W.NoReturn)
  {
  }

  /** Outside Maths, a coordinate letter X, Y or Z as the mode is refused. */
  lemma CoordinateLetterRefused(w: W.World, hooks: Hooks, reading: W.Reading)
    requires W.ValidWorld(w) && |w.scene.command| >= 3 && !IsHelp(w.scene.command)
    requires w.scene.command[0] in Operations && w.scene.command[0] !in "mM"
    requires w.scene.command[1] in "xXyYzZ"
    ensures Run(w, hooks, reading) == W.Outcome(W.SetError(w, Messages.Plain(Messages.BadCoordL)), W.NoReturn)
  {
    var c := w.scene.command[1];
    assert ModeAccepted(c, reading) by {
      ModeLettersAsWritten(c);
      ModeLettersIntended(c);
    }
  }

  /**
   A Maths command with a routing mode writes its value to exactly one scene
   variable (the angle clamped to its declared range) and changes nothing
   else but the error; a comma in the expression sets the no-commas error
   without stopping the evaluation.
   */
  lemma MathsWritesOneVariable(w: W.World, expr: string, mode: char, slot: Slot, x: real, hooks: Hooks)
    requires hooks.eval(expr) == EvalNumber(x) && MathsSlot(mode) == Some(slot)
    ensures var r := RunMaths(w, mode, expr, hooks);
      r.status == W.NoReturn
      && r.world.objects == w.objects && r.world.active == w.active && r.world.selected == w.selected
      && r.world.host == w.host
      && r.world.scene == Store(w.scene, slot, x).(error := r.world.scene.error)
      && (slot != SlotAngle ==> Read(r.world.scene, slot) == x)
      && (forall o :: o != slot ==> Read(r.world.scene, o) == Read(w.scene, o))
      && (',' in expr ==> r.world.scene.error == Some(Messages.Plain(Messages.NoCommas)))
      && (',' !in expr ==> r.world.scene.error == w.scene.error)
  {
  }

  /** A Maths mode that routes nowhere sets the not-valid error and writes no variable. */
  lemma MathsOtherModeRefused(w: W.World, expr: string, mode: char, x: real, hooks: Hooks)
    requires hooks.eval(expr) == EvalNumber(x) && mode !in "xXyYzZdDaApP"
    ensures var r := RunMaths(w, mode, expr, hooks);
      r.status == W.NoReturn && r.world.scene.error == Some(Messages.Message(Messages.NonValid, [mode] + " Maths"))
      && forall o :: Read(r.world.scene, o) == Read(w.scene, o)
  {
  }

  /**
   A value count the mode does not take (three for A and D, two for I, one
   for P) sets the matching error and moves nothing.
   */
  lemma ArityErrorMovesNothing(w: W.World, ctx: Option<W.Obj>, oper: char, mode: char, vals: seq<string>, hooks: Hooks, reading: W.Reading)
    requires Holds(w, ctx) && |vals| >= 1
    requires mode in "aAdDiIpP" && |vals| != Arity(mode)
    requires oper in "cCpP"
      || (oper in "gG" && mode !in "pP")
      || (oper in "nNsS" && ctx.Some? && ctx.value.mode == W.EditMode)
    ensures Dispatch(w, ctx, oper, mode, vals, hooks, reading) == W.Outcome(W.SetError(w, ArityMessage(mode)), W.NoReturn)
  {
  }

  /** `CA x,y,z` puts the cursor at (x, y, z), needs no object, and changes nothing else. */
  lemma CursorAbsolute(w: W.World, ctx: Option<W.Obj>, vals: seq<string>, hooks: Hooks)
    requires Holds(w, ctx) && |vals| == 3
    ensures RunCursor(w, ctx, 'C', 'A', vals, hooks) == W.Outcome(w.(scene := w.scene.(cursor := ValsVec(vals))), W.NoReturn)
  {
  }

  /** `CD` and `PD` in REL mode add the delta to the current location. */
  lemma RelativeDeltaAccumulates(w: W.World, ctx: Option<W.Obj>, oper: char, vals: seq<string>, hooks: Hooks)
    requires Holds(w, ctx) && |vals| == 3 && oper in "cCpP"
    requires w.scene.select == Properties.REL
    ensures var r := RunCursor(w, ctx, oper, 'D', vals, hooks);
      r.status == W.NoReturn && Target(r.world, oper in "cC") == Add(Target(w, oper in "cC"), ValsVec(vals))
      && Target(r.world, oper !in "cC") == Target(w, oper !in "cC")
      && r.world.objects == w.objects
  {
    assert 'D' !in "aA" && 'D' in "dDiI" && Arity('D') == 3;
    assert Offset(w, 'D', vals, hooks) == ValsVec(vals);
  }

  /**
   As written, an A command for any operation but C, P and S reads `obj`,
   which only the object check assigns, and the check is skipped for mode
   A: the command raises `UnboundLocalError`.
   */
  lemma ModeAObjectUnbound(w: W.World, oper: char, vals: seq<string>, hooks: Hooks)
    requires W.ValidWorld(w) && |vals| >= 1
    requires oper in "nNvVeEdDfF" || (oper in "gG" && |vals| == 3)
    ensures RunCommand(w, oper, 'A', vals, hooks, W.AsWritten) == W.Crash(w, W.UnboundLocal("obj"))
  {
    assert !NeedsObject(oper, 'A', W.AsWritten);
    if oper in "nNvV" {
      UnboundAdding(w, oper, vals, hooks);
    } else if oper in "eEdD" {
      UnboundRegion(w, oper, vals, hooks);
    } else if oper in "fF" {
      UnboundFillet(w, oper, vals, hooks);
    } else {
      UnboundMoving(w, oper, vals, hooks);
    }
  }

  lemma UnboundAdding(w: W.World, oper: char, vals: seq<string>, hooks: Hooks)
    requires W.ValidWorld(w) && |vals| >= 1 && oper in "nNvV"
    ensures Dispatch(w, None, oper, 'A', vals, hooks, W.AsWritten) == W.Crash(w, W.UnboundLocal("obj"))
  {
  }

  lemma UnboundRegion(w: W.World, oper: char, vals: seq<string>, hooks: Hooks)
    requires W.ValidWorld(w) && |vals| >= 1 && oper in "eEdD"
    ensures Dispatch(w, None, oper, 'A', vals, hooks, W.AsWritten) == W.Crash(w, W.UnboundLocal("obj"))
  {
  }

  lemma UnboundFillet(w: W.World, oper: char, vals: seq<string>, hooks: Hooks)
    requires W.ValidWorld(w) && |vals| >= 1 && oper in "fF"
    ensures Dispatch(w, None, oper, 'A', vals, hooks, W.AsWritten) == W.Crash(w, W.UnboundLocal("obj"))
  {
  }

  lemma UnboundMoving(w: W.World, oper: char, vals: seq<string>, hooks: Hooks)
    requires W.ValidWorld(w) && oper in "gG" && |vals| == 3
    ensures Dispatch(w, None, oper, 'A', vals, hooks, W.AsWritten) == W.Crash(w, W.UnboundLocal("obj"))
  {
  }

  /** As intended, no command reads `obj` before it is assigned. */
  lemma ObjectAlwaysBound(w: W.World, oper: char, mode: char, vals: seq<string>, hooks: Hooks)
    requires W.ValidWorld(w) && |vals| >= 1
    ensures RunCommand(w, oper, mode, vals, hooks, W.Intended).status != W.Raised(W.UnboundLocal("obj"))
  {
    if !NeedsObject(oper, mode, W.Intended) {
      assert mode in "aA" && oper in "cCpP?";
    }
  }

  /**
   As written, `GP` in Object mode assigns to `ob`, which no loop on that
   path has bound: once the percentage point is found it raises
   `UnboundLocalError`. As intended the active object moves to that point.
   */
  lemma GrabPercentOb(w: W.World, o: W.Obj, vals: seq<string>, hooks: Hooks, v: Vec)
    requires Holds(w, Some(o)) && |vals| == 1 && o.mode == W.ObjectMode
    requires PdtFunctions.GetPercent(w, o, w.scene.flipPercent, Num(vals[0]), "G") == PdtFunctions.PercentOk(v)
    ensures RunGrab(w, Some(o), 'G', 'P', vals, hooks, W.AsWritten) == W.Crash(w, W.UnboundLocal("ob"))
    ensures var r := RunGrab(w, Some(o), 'G', 'P', vals, hooks, W.Intended);
      r.status == W.NoReturn && W.Active(r.world) == Some(o.(location := v))
  {
  }

  /** `FE…` is refused as written, since "E" is not an accepted mode letter, though the help lists it for Fillet. */
  lemma FilletEdgesRefused(w: W.World, hooks: Hooks)
    requires W.ValidWorld(w) && |w.scene.command| >= 3 && w.scene.command[..2] == "FE"
    ensures Run(w, hooks, W.AsWritten) == W.Outcome(W.SetError(w, Messages.Plain(Messages.BadSLetter)), W.NoReturn)
    ensures Parse(w.scene.command, W.Intended) != BadMode
  {
    var cmd := w.scene.command;
    assert cmd[0] == 'F' && cmd[1] == 'E' by { assert cmd[..2][0] == cmd[0] && cmd[..2][1] == cmd[1]; }
    assert !IsHelp(cmd) by {
      assert Lower(cmd)[0] == 'f';
    }
    MissingCommaDropsTwoLetters();
  }
}
