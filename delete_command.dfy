/**
 * The editor's `delete` key handler (`DrinkEditor.handleKeyCommand`) as a
 * function from the current editor state and the command to an outcome.
 */
module DeleteCommand {
  import opened Wrappers
  import opened Draft

  /** What the handler does: replace the editor state, decline, or fail on an unknown block key. */
  datatype Outcome = Handled(next: EditorState) | NotHandled | TypeError

  /** Both ends of the selection name blocks of the current content (otherwise `blockMap.get` yields undefined). */
  predicate Resolves(es: EditorState)
    ensures Resolves(es) <==>
      es.selection.StartKey().Some? && es.selection.EndKey().Some? &&
      es.selection.StartKey().value in Keys(es.content.blocks) &&
      es.selection.EndKey().value in Keys(es.content.blocks)
  {
    var sel := es.selection;
    sel.StartKey().Some? && sel.EndKey().Some? &&
    IndexOf(es.content.blocks, sel.StartKey().value).Some? &&
    IndexOf(es.content.blocks, sel.EndKey().value).Some?
  }

  function StartIndex(es: EditorState): (i: nat)
    requires Resolves(es)
    ensures i < |es.content.blocks| && es.content.blocks[i].key == es.selection.StartKey().value
  {
    IndexOf(es.content.blocks, es.selection.StartKey().value).value
  }

  function EndIndex(es: EditorState): (j: nat)
    requires Resolves(es)
    ensures j < |es.content.blocks| && es.content.blocks[j].key == es.selection.EndKey().value
  {
    IndexOf(es.content.blocks, es.selection.EndKey().value).value
  }

  /** Part of the end block's text lies after the selection and survives. */
  predicate KeepsTail(es: EditorState)
    requires Resolves(es)
    ensures var b, off := es.content.blocks[EndIndex(es)], es.selection.EndOffset();
      KeepsTail(es) ==> off < |b.text| && TailBlock(b, off).text != [] && b.text == b.text[..off] + TailBlock(b, off).text
    ensures !KeepsTail(es) ==> |es.content.blocks[EndIndex(es)].text| <= es.selection.EndOffset()
  {
    es.selection.EndOffset() < |es.content.blocks[EndIndex(es)].text|
  }

  /** The trigger: the start block is empty or the end block is not fully consumed. */
  predicate MergeApplies(es: EditorState)
    requires Resolves(es)
    ensures MergeApplies(es) <==> |es.content.blocks[StartIndex(es)].text| == 0 || Replacement(es) != []
  {
    |es.content.blocks[StartIndex(es)].text| == 0 || KeepsTail(es)
  }

  /**
   * The surviving part of the end block: same key and type, its text from
   * `offset` on, each remaining character keeping its own metadata.
   */
  function TailBlock(b: Block, offset: nat): (t: Block)
    requires offset <= |b.text|
    ensures t.key == b.key && t.blockType == b.blockType
    ensures b.text == b.text[..offset] + t.text
    ensures WellFormedBlock(b) ==> WellFormedBlock(t)
    ensures WellFormedBlock(b) ==> forall i :: 0 <= i < |t.text| ==> t.chars[i] == b.chars[offset + i]
  {
    Block(b.key, b.blockType, b.text[offset..],
          if offset <= |b.chars| then b.chars[offset..] else [])
  }

  /** The same block built as `endBlock.merge({text, type})` does: the character list is not cut. */
  function TailBlockAsWritten(b: Block, offset: nat): (t: Block)
    requires offset <= |b.text|
    ensures t.key == b.key && t.blockType == b.blockType && t.chars == b.chars
    ensures b.text == b.text[..offset] + t.text
  {
    b.(text := b.text[offset..])
  }

  /** The caret the handler leaves: collapsed at offset 0 of `focus`, forward, other fields kept. */
  function CaretAt(sel: Selection, focus: Option<Key>): (c: Selection)
    ensures c.IsCollapsed() && !c.isBackward && c.anchorKey == focus && c.anchorOffset == 0
    ensures c.hasFocus == sel.hasFocus
  {
    sel.(anchorKey := focus, anchorOffset := 0, focusKey := focus, focusOffset := 0, isBackward := false)
  }

  /** Blocks before position `i`, then `mid`, then blocks after position `j`. */
  function Splice(bs: seq<Block>, i: nat, j: nat, mid: seq<Block>): (r: seq<Block>)
    requires i <= j < |bs|
    ensures |r| == i + |mid| + (|bs| - j - 1)
  {
    bs[..i] + mid + bs[j + 1..]
  }

  /** The replacement the handler puts between the kept blocks: the end block's tail, or nothing. */
  function Replacement(es: EditorState): (mid: seq<Block>)
    requires Resolves(es)
    ensures |mid| <= 1
    ensures |mid| == 1 <==> KeepsTail(es)
  {
    var bs, j := es.content.blocks, EndIndex(es);
    if KeepsTail(es) then [TailBlock(bs[j], es.selection.EndOffset())] else []
  }

  /**
   * The splice: blocks before the start key, the surviving tail of the end
   * block if any, blocks after the end key; a caret on the tail or on the block
   * after the end key; the old content pushed on the undo stack.
   */
  function DeleteRange(es: EditorState): (next: EditorState)
    requires ValidState(es) && Resolves(es) && MergeApplies(es)
    ensures var bs, i, j := es.content.blocks, StartIndex(es), EndIndex(es);
      i <= j && next.content.blocks == Splice(bs, i, j, Replacement(es))
    ensures var bs, j := es.content.blocks, EndIndex(es);
      next.selection == CaretAt(es.selection,
        if KeepsTail(es) then Some(bs[j].key)
        else if j + 1 < |bs| then Some(bs[j + 1].key)
        else None)
    ensures next.content.selectionAfter == next.selection
    ensures next.content.selectionBefore == es.selection
    ensures next.undoStack == es.undoStack + [es.content] && next.redoStack == []
  {
    var sel := es.selection;
    var bs := es.content.blocks;
    var startKey, endKey := sel.StartKey().value, sel.EndKey().value;
    var endOffset := sel.EndOffset();
    var endBlock := bs[EndIndex(es)];
    var before := TakeUntil(bs, startKey);
    var after := SkipUntilRest(bs, endKey);
    var merged := if endOffset < |endBlock.text| then [TailBlock(endBlock, endOffset)] else [];
    var focusKey := if endOffset < |endBlock.text| then Some(endBlock.key) else KeyAfter(bs, endKey);
    assert before == bs[..StartIndex(es)];
    assert after == bs[EndIndex(es) + 1..];
    var newContent := ContentState(before + merged + after, sel, CaretAt(sel, focusKey));
    Push(es, newContent)
  }

  /** `handleKeyCommand(command)` run against editor state `es`. */
  function KeyCommand(es: EditorState, command: string): (r: Outcome)
    requires ValidState(es)
    ensures command != "delete" ==> r == NotHandled
    ensures r.TypeError? <==> command == "delete" && !Resolves(es)
    ensures r.Handled? <==> command == "delete" && Resolves(es) && MergeApplies(es)
    ensures r.Handled? ==> r.next == DeleteRange(es)
  {
    if command != "delete" then NotHandled
    else if !Resolves(es) then TypeError
    else if MergeApplies(es) then Handled(DeleteRange(es))
    else NotHandled
  }
}
