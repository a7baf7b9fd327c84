/**
 * The draft-js values that the editor's delete handler reads and builds:
 * blocks, the ordered block map (as a sequence with unique keys), the
 * selection, the content state and the editor state with its undo history.
 * Only the library behaviour the handler relies on is modelled.
 */
module Draft {
  import opened Wrappers

  type Key = string

  /** Inline style and entity annotation of one character (draft-js CharacterMetadata). */
  datatype CharMetadata = CharMetadata(styles: set<string>, entity: Option<Key>)

  /** A content block; `chars` holds one metadata entry per character of `text`. */
  datatype Block = Block(key: Key, blockType: string, text: string, chars: seq<CharMetadata>)

  /** draft-js keeps one metadata entry per character. */
  predicate WellFormedBlock(b: Block) {
    |b.chars| == |b.text|
  }

  predicate AllWellFormed(bs: seq<Block>) {
    forall i :: 0 <= i < |bs| ==> WellFormedBlock(bs[i])
  }

  /** The keys of a block map, in document order. */
  function Keys(bs: seq<Block>): (ks: seq<Key>)
    ensures |ks| == |bs|
    ensures forall i :: 0 <= i < |bs| ==> ks[i] == bs[i].key
  {
    seq(|bs|, i requires 0 <= i < |bs| => bs[i].key)
  }

  predicate Distinct(s: seq<Key>) {
    forall i, j :: 0 <= i < j < |s| ==> s[i] != s[j]
  }

  /** An ordered map never holds the same key twice. */
  predicate DistinctKeys(bs: seq<Block>) {
    Distinct(Keys(bs))
  }

  /** Position of the block with key `k` (the lookup behind `blockMap.get`). */
  function IndexOf(bs: seq<Block>, k: Key): (r: Option<nat>)
    ensures r.Some? ==> r.value < |bs| && bs[r.value].key == k
    ensures r.Some? ==> forall i :: 0 <= i < r.value ==> bs[i].key != k
    ensures r.None? <==> forall i :: 0 <= i < |bs| ==> bs[i].key != k
  {
    if bs == [] then None
    else if bs[0].key == k then Some(0)
    else match IndexOf(bs[1..], k)
      case None => None
      case Some(i) => Some(i + 1)
  }

  /** `blockMap.toSeq().takeUntil(key == k)`: the blocks strictly before `k`. */
  function TakeUntil(bs: seq<Block>, k: Key): (r: seq<Block>)
    ensures |r| <= |bs| && r == bs[..|r|]
    ensures forall i :: 0 <= i < |r| ==> r[i].key != k
    ensures |r| < |bs| ==> bs[|r|].key == k
  {
    if bs == [] || bs[0].key == k then []
    else
      var tail := TakeUntil(bs[1..], k);
      assert bs[1..][..|tail|] == bs[1..|tail| + 1];
      [bs[0]] + tail
  }

  /** `blockMap.toSeq().skipUntil(key == k).rest()`: the blocks strictly after `k`, or none. */
  function SkipUntilRest(bs: seq<Block>, k: Key): (r: seq<Block>)
    ensures IndexOf(bs, k).Some? ==> r == bs[IndexOf(bs, k).value + 1..]
    ensures IndexOf(bs, k).None? ==> r == []
  {
    if bs == [] then []
    else if bs[0].key == k then bs[1..]
    else SkipUntilRest(bs[1..], k)
  }

  /** `contentState.getKeyAfter(k)`: the key that follows `k` in document order. */
  function KeyAfter(bs: seq<Block>, k: Key): (r: Option<Key>)
    ensures r.Some? <==> IndexOf(bs, k).Some? && IndexOf(bs, k).value + 1 < |bs|
    ensures r.Some? ==> r.value == bs[IndexOf(bs, k).value + 1].key
  {
    var rest := SkipUntilRest(bs, k);
    if rest == [] then None else Some(rest[0].key)
  }

  /** A selection: anchor and focus positions, direction and focus flag. */
  datatype Selection = Selection(
    anchorKey: Option<Key>, anchorOffset: nat,
    focusKey: Option<Key>, focusOffset: nat,
    isBackward: bool, hasFocus: bool)
  {
    /** `getStartKey()`: the anchor's key, or the focus's when the selection runs backward. */
    function StartKey(): (k: Option<Key>)
      ensures k == anchorKey || k == focusKey
      ensures !isBackward ==> k == anchorKey
      ensures isBackward ==> k == focusKey
      ensures anchorKey == focusKey ==> k == anchorKey
    {
      if isBackward then focusKey else anchorKey
    }

    /** `getEndKey()`: the other end's key. */
    function EndKey(): (k: Option<Key>)
      ensures !isBackward ==> k == focusKey
      ensures {StartKey(), k} == {anchorKey, focusKey}
    {
      if isBackward then anchorKey else focusKey
    }

    /** `getStartOffset()`: the offset of the same end as `StartKey`. */
    function StartOffset(): (o: nat)
      ensures o == anchorOffset || o == focusOffset
      ensures !isBackward ==> o == anchorOffset
      ensures isBackward ==> o == focusOffset
      ensures anchorOffset == focusOffset ==> o == anchorOffset
    {
      if isBackward then focusOffset else anchorOffset
    }

    /** `getEndOffset()`: start and end are the anchor and focus positions, one each. */
    function EndOffset(): (o: nat)
      ensures !isBackward ==> o == focusOffset
      ensures multiset{(StartKey(), StartOffset()), (EndKey(), o)} ==
              multiset{(anchorKey, anchorOffset), (focusKey, focusOffset)}
    {
      if isBackward then anchorOffset else focusOffset
    }

    predicate IsCollapsed() { anchorKey == focusKey && anchorOffset == focusOffset }
  }

  /** A caret at offset 0 of `k`, as `SelectionState.createEmpty(k)` builds it. */
  function EmptySelection(k: Option<Key>): Selection {
    Selection(k, 0, k, 0, false, false)
  }

  datatype ContentState = ContentState(blocks: seq<Block>, selectionBefore: Selection, selectionAfter: Selection)

  /** The current content and selection with the undo and redo stacks (top of stack last). */
  datatype EditorState = EditorState(
    content: ContentState, selection: Selection,
    undoStack: seq<ContentState>, redoStack: seq<ContentState>)

  /** The selection's start block does not come after its end block (draft-js keeps `isBackward` right). */
  predicate SelectionOrdered(sel: Selection, bs: seq<Block>) {
    sel.StartKey().Some? && sel.EndKey().Some? &&
    IndexOf(bs, sel.StartKey().value).Some? && IndexOf(bs, sel.EndKey().value).Some? ==>
      IndexOf(bs, sel.StartKey().value).value <= IndexOf(bs, sel.EndKey().value).value
  }

  /** The invariants draft-js maintains for every editor state it hands out. */
  predicate ValidState(es: EditorState) {
    DistinctKeys(es.content.blocks) && SelectionOrdered(es.selection, es.content.blocks)
  }

  /** `ContentState.createFromBlockArray`: both recorded selections are a caret on the first block. */
  function ContentFromBlocks(bs: seq<Block>): (c: ContentState)
    ensures c.blocks == bs && c.selectionBefore == c.selectionAfter
    ensures c.selectionAfter.IsCollapsed() && !c.selectionAfter.isBackward && c.selectionAfter.anchorOffset == 0
    ensures bs != [] ==> c.selectionAfter.anchorKey.Some? && IndexOf(bs, c.selectionAfter.anchorKey.value) == Some(0)
    ensures bs == [] ==> c.selectionAfter.anchorKey.None?
  {
    var first := if bs == [] then None else Some(bs[0].key);
    ContentState(bs, EmptySelection(first), EmptySelection(first))
  }

  /** `EditorState.createEmpty()`: one empty unstyled block; its random key is a parameter. */
  function CreateEmpty(k: Key): (es: EditorState)
    ensures ValidState(es)
  {
    var c := ContentFromBlocks([Block(k, "unstyled", "", [])]);
    EditorState(c, c.selectionAfter, [], [])
  }

  /**
   * `EditorState.push(es, c)` with no change type: `c` becomes current with its
   * recorded selection-after and, as the selection before it, the editor's
   * current selection; the old content goes on the undo stack and redo is cleared.
   */
  function Push(es: EditorState, c: ContentState): (r: EditorState)
    ensures r.content.blocks == c.blocks && r.content.selectionAfter == c.selectionAfter
    ensures r.selection == c.selectionAfter
    ensures r.undoStack == es.undoStack + [es.content] && r.redoStack == []
    ensures Undo(r) == EditorState(es.content, es.selection, es.undoStack, [r.content])
  {
    var r := EditorState(c.(selectionBefore := es.selection), c.selectionAfter, es.undoStack + [es.content], []);
    assert r.undoStack[..|r.undoStack| - 1] == es.undoStack;
    r
  }

  /** `EditorState.undo`: restore the top of the undo stack with the undone content's selection-before. */
  function Undo(es: EditorState): EditorState {
    if es.undoStack == [] then es
    else
      var prev := es.undoStack[|es.undoStack| - 1];
      EditorState(prev, es.content.selectionBefore,
                  es.undoStack[..|es.undoStack| - 1], es.redoStack + [es.content])
  }

  /** `EditorState.redo`: restore the top of the redo stack with its selection-after. */
  function Redo(es: EditorState): EditorState {
    if es.redoStack == [] then es
    else
      var next := es.redoStack[|es.redoStack| - 1];
      EditorState(next, next.selectionAfter,
                  es.undoStack + [es.content], es.redoStack[..|es.redoStack| - 1])
  }
}
