/**
 * The drawing item record shared by the designer's server and client code. A drawing is a
 * sequence of these records; the fields below are the ones the list transformations read
 * or write, and `attrs` stands for every other field (geometry, colour, text, ...).
 *
 * String-valued fields use "" for a field that is absent. Almost everywhere the code only
 * tests them for truthiness or compares them, which treats `undefined` like ""; the one
 * place that tells the two apart, the defaults of the import clean-up, reads "" as absent.
 */
module DrawingItems {
  import opened Wrappers
  import opened Seqs

  const TouchZone := "touchZone"
  const TouchAction := "touchAction"
  const TouchActionInput := "touchActionInput"
  const Hide := "hide"
  const Unhide := "unhide"
  const Erase := "erase"
  const Index := "index"
  const InsertDwg := "insertDwg"

  datatype Item = Item(
    kind: string,                  // item.type
    cmdName: string,
    cmd: string,
    idxName: string,
    idx: Option<int>,              // item.idx; None is undefined
    indexed: bool,
    drawingName: string,
    action: Option<seq<Item>>,     // touchAction's action array; None when the field is missing
    textIdx: Option<int>,
    visible: Option<bool>,
    isTemporary: bool,             // item.__isTemporary
    attrs: map<string, string>)

  /** An item of the given type with no other field set. */
  function NewItem(kind: string): Item {
    Item(kind, "", "", "", None, false, "", None, None, None, false, map[])
  }

  /** `item.idx` is truthy: present and non-zero. */
  predicate HasIdx(it: Item) {
    it.idx.Some? && it.idx.value != 0
  }

  /** One of the three command item types that show, hide or remove other items. */
  predicate IsVisibilityCommand(kind: string) {
    kind == Hide || kind == Unhide || kind == Erase
  }

  predicate IsTouchChild(it: Item) {
    it.kind == TouchAction || it.kind == TouchActionInput
  }

  /** The number of actions of a touchAction (`item.action?.length || 0`). */
  function ActionCount(it: Item): nat {
    match it.action
    case None => 0
    case Some(a) => |a|
  }

  /** A drawing as the server stores it (`drawings[name].data`). */
  datatype Drawing = Drawing(
    name: string,
    version: string,
    x: int,
    y: int,
    color: string,
    refresh: int,
    items: seq<Item>)

  /**
   * A temporary editing copy (`tempEditDrawings[name]`): the copied drawing, the drawing it
   * was copied from, the item currently shown as an add-mode preview, the editor mode, the
   * numeric edit index (None for undefined, null or NaN), the update-only mark, and for a
   * touchAction editing copy the command name of the touchAction it isolates
   * (`data.originalTouchAction.cmdName`) and that touchAction's position in the original
   * drawing (`data.originalTouchActionIndex`, -1 for a new one).
   */
  datatype TempEntry = TempEntry(
    data: Drawing,
    originalName: string,
    tempPreviewItem: Option<Item>,
    mode: string,
    editIndex: Option<int>,
    isUpdateOnly: bool,
    originalCmdName: Option<string>,
    originalTouchActionIndex: Option<int>)

  /** The `{ valid, error }` answer of the editor mode checks. */
  datatype Validation = Valid | Invalid(error: string)

  /** An HTTP handler's answer: success, or the error status it sends. */
  datatype Response = Success | Failure(status: nat)
}
