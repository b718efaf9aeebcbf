/**
 The messages the add-on shows when it refuses to act. The string table in
 `clockworxpdt/pdt_msg_strings.py` holds constant texts; here each constant is
 a tag, and the part a message formats in at run time (a count, a mode name,
 an option code) is kept beside it as `detail`. The older operator revision
 writes its messages inline rather than from the table; those are mapped to
 the tag with the same meaning, or kept verbatim with `Literal`.
 */
module Messages {
  import Text

  datatype Tag =
    | NoActObj          // PDT_ERR_NO_ACT_OBJ
    | NoActVert         // PDT_ERR_NO_ACT_VERT
    | NoSelGeom         // PDT_ERR_NO_SEL_GEOM
    | NoActVerts        // PDT_ERR_NO_ACT_VERTS
    | NonValid          // PDT_ERR_NON_VALID, detail names the option and the command
    | VertMode          // PDT_ERR_VERT_MODE
    | Sel1Verti         // PDT_ERR_SEL_1_VERTI
    | Sel1Vert          // PDT_ERR_SEL_1_VERT
    | Sel2Vertio        // PDT_ERR_SEL_2_VERTIO
    | Sel2Verts         // PDT_ERR_SEL_2_VERTS
    | Sel3Verts         // PDT_ERR_SEL_3_VERTS
    | Sel3Vertio        // PDT_ERR_SEL_3_VERTIO
    | Sel4Verts         // PDT_ERR_SEL_4_VERTS
    | Sel1Edge          // PDT_ERR_SEL_1_EDGE
    | Sel1EdgeM         // PDT_ERR_SEL_1_EDGEM
    | Sel2Objs          // PDT_ERR_SEL_2_OBJS
    | Sel3Objs          // PDT_ERR_SEL_3_OBJS
    | Sel4Objs          // PDT_ERR_SEL_4_OBJS
    | FaceSel           // PDT_ERR_FACE_SEL
    | IntLines          // PDT_ERR_INT_LINES
    | IntNoAll          // PDT_ERR_INT_NO_ALL
    | StraightLine      // PDT_ERR_STRIGHT_LINE
    | Connected         // PDT_ERR_CONNECTED
    | EditMode          // PDT_ERR_EDIT_MODE
    | EdobMode          // PDT_ERR_EDOB_MODE
    | TaperAng          // PDT_ERR_TAPER_ANG
    | TaperSel          // PDT_ERR_TAPER_SEL
    | No3dView          // PDT_ERR_NO3DVIEW
    | CharsNum          // PDT_ERR_CHARS_NUM
    | BadFLetter        // PDT_ERR_BADFLETTER
    | BadSLetter        // PDT_ERR_BADSLETTER
    | BadMaths          // PDT_ERR_BADMATHS
    | BadCoordL         // PDT_ERR_BADCOORDL
    | Bad1Vals          // PDT_ERR_BAD1VALS
    | Bad2Vals          // PDT_ERR_BAD2VALS
    | Bad3Vals          // PDT_ERR_BAD3VALS
    | AddVEdit          // PDT_ERR_ADDVEDIT
    | SplitEdit         // PDT_ERR_SPLITEDIT
    | ExtEdit           // PDT_ERR_EXTEDIT
    | DupEdit           // PDT_ERR_DUPEDIT
    | FilEdit           // PDT_ERR_FILEDIT
    | NoCommas          // PDT_ERR_NOCOMMAS
    | Literal(text: string)   // a message written inline, not from the table

  /** A message: its constant part and the text formatted into it. */
  datatype Message = Message(tag: Tag, detail: string)

  function Plain(t: Tag): Message
  {
    Message(t, "")
  }

  /** A message that reports how many elements the user had selected. */
  function Counted(t: Tag, n: nat): Message
  {
    Message(t, Text.NatToString(n))
  }
}
