/** What the delete handler guarantees about the document, the caret and the history. */
module DeleteProperties {
  import opened Wrappers
  import opened Draft
  import opened KeyOrder
  import opened DeleteCommand

  /** A replacement is empty or a single block carrying the end block's key. */
  predicate ReplacesEnd(bs: seq<Block>, j: nat, mid: seq<Block>)
    requires j < |bs|
  {
    |mid| <= 1 && (|mid| == 1 ==> mid[0].key == bs[j].key)
  }

  lemma SpliceAt(bs: seq<Block>, i: nat, j: nat, mid: seq<Block>, q: nat)
    requires i <= j < |bs| && q < |Splice(bs, i, j, mid)|
    ensures q < i ==> Splice(bs, i, j, mid)[q] == bs[q]
    ensures i <= q < i + |mid| ==> Splice(bs, i, j, mid)[q] == mid[q - i]
    ensures i + |mid| <= q ==> Splice(bs, i, j, mid)[q] == bs[q - i - |mid| + j + 1]
  {
  }

  lemma SpliceKeys(bs: seq<Block>, i: nat, j: nat, mid: seq<Block>)
    requires i <= j < |bs|
    ensures Keys(Splice(bs, i, j, mid)) == Keys(bs)[..i] + Keys(mid) + Keys(bs)[j + 1..]
  {
  }

  /** Splicing out a block range and putting back at most the end block keeps the keys in order and adds none. */
  lemma SpliceKeysSubsequence(bs: seq<Block>, i: nat, j: nat, mid: seq<Block>)
    requires i <= j < |bs| && ReplacesEnd(bs, j, mid)
    ensures IsSubsequence(Keys(Splice(bs, i, j, mid)), Keys(bs))
  {
    var ks := Keys(bs);
    SpliceKeys(bs, i, j, mid);
    assert IsSubsequence(Keys(mid), ks[i..j + 1]) by {
      if |mid| == 1 {
        assert Keys(mid) == [ks[i..j + 1][j - i]];
        SingletonSubsequence(ks[i..j + 1], j - i);
      }
    }
    SubsequenceReflexive(ks[..i]);
    SubsequenceReflexive(ks[j + 1..]);
    SubsequenceConcat(ks[..i], ks[..i], Keys(mid), ks[i..j + 1]);
    SubsequenceConcat(ks[..i] + Keys(mid), ks[..i] + ks[i..j + 1], ks[j + 1..], ks[j + 1..]);
    assert ks[..i] + ks[i..j + 1] + ks[j + 1..] == ks;
  }

  /** With unique keys, a block's key survives the splice exactly when the block is outside the range or is the replaced end block. */
  lemma SpliceSurvivor(bs: seq<Block>, i: nat, j: nat, mid: seq<Block>, p: nat)
    requires i <= j < |bs| && ReplacesEnd(bs, j, mid) && DistinctKeys(bs) && p < |bs|
    ensures bs[p].key in Keys(Splice(bs, i, j, mid)) <==> p < i || j < p || (p == j && |mid| == 1)
  {
    var r := Splice(bs, i, j, mid);
    if p < i {
      SpliceAt(bs, i, j, mid, p);
      assert Keys(r)[p] == bs[p].key;
    } else if j < p {
      var q := p - j - 1 + i + |mid|;
      SpliceAt(bs, i, j, mid, q);
      assert Keys(r)[q] == bs[p].key;
    } else if p == j && |mid| == 1 {
      SpliceAt(bs, i, j, mid, i);
      assert Keys(r)[i] == bs[p].key;
    } else {
      forall q | 0 <= q < |r| ensures Keys(r)[q] != bs[p].key {
        SpliceAt(bs, i, j, mid, q);
        if q < i {
          assert Keys(bs)[q] != Keys(bs)[p];
        } else if q < i + |mid| {
          assert Keys(bs)[j] != Keys(bs)[p];
        } else {
          assert Keys(bs)[q - i - |mid| + j + 1] != Keys(bs)[p];
        }
      }
    }
  }

  /** The new block keys are the old ones with some dropped, in the same order: no key is introduced. */
  lemma DeleteKeysSubsequence(es: EditorState)
    requires ValidState(es) && Resolves(es) && MergeApplies(es)
    ensures IsSubsequence(Keys(DeleteRange(es).content.blocks), Keys(es.content.blocks))
  {
    SpliceKeysSubsequence(es.content.blocks, StartIndex(es), EndIndex(es), Replacement(es));
  }

  /** Keys stay unique, and every key of the result was a key before. */
  lemma DeleteKeepsKeysUnique(es: EditorState)
    requires ValidState(es) && Resolves(es) && MergeApplies(es)
    ensures DistinctKeys(DeleteRange(es).content.blocks)
    ensures forall k :: k in Keys(DeleteRange(es).content.blocks) ==> k in Keys(es.content.blocks)
  {
    DeleteKeysSubsequence(es);
    SubsequenceDistinct(Keys(DeleteRange(es).content.blocks), Keys(es.content.blocks));
    SubsequenceElements(Keys(DeleteRange(es).content.blocks), Keys(es.content.blocks));
  }

  /** The result is again a state draft-js would hand out. */
  lemma DeletePreservesValidity(es: EditorState)
    requires ValidState(es) && Resolves(es) && MergeApplies(es)
    ensures ValidState(DeleteRange(es))
  {
  }

  /**
   * A block of the old content survives exactly when it lies outside the
   * selected block range, or is the end block and its tail is kept; the start
   * block of a multi-block range goes whatever the start offset is.
   */
  lemma DeleteSurvivors(es: EditorState, p: nat)
    requires ValidState(es) && Resolves(es) && MergeApplies(es)
    requires p < |es.content.blocks|
    ensures es.content.blocks[p].key in Keys(DeleteRange(es).content.blocks) <==>
      p < StartIndex(es) || EndIndex(es) < p || (p == EndIndex(es) && KeepsTail(es))
  {
    SpliceSurvivor(es.content.blocks, StartIndex(es), EndIndex(es), Replacement(es), p);
  }

  /**
   * The caret is on the first block after the deleted range: the kept tail, or
   * the block after the end key. It is undefined exactly when the end block was
   * the last block and fully consumed; the new content then ends at the start key.
   */
  lemma DeleteCaretOnFirstSurvivor(es: EditorState)
    requires ValidState(es) && Resolves(es) && MergeApplies(es)
    ensures var next, i := DeleteRange(es), StartIndex(es);
      next.selection.focusKey.Some? ==>
        i < |next.content.blocks| && next.content.blocks[i].key == next.selection.focusKey.value
    ensures var next := DeleteRange(es);
      next.selection.focusKey.None? <==> !KeepsTail(es) && EndIndex(es) == |es.content.blocks| - 1
    ensures var next := DeleteRange(es);
      next.selection.focusKey.None? ==> next.content.blocks == es.content.blocks[..StartIndex(es)]
  {
  }

  /** Every kept block, and the cut tail, still carries one metadata entry per character. */
  lemma DeletePreservesWellFormedness(es: EditorState)
    requires ValidState(es) && Resolves(es) && MergeApplies(es)
    requires AllWellFormed(es.content.blocks)
    ensures AllWellFormed(DeleteRange(es).content.blocks)
  {
  }

  /** Undo after a handled delete gives back the old content and the selection in effect before it; redo then gives the result back. */
  lemma UndoDeleteRestores(es: EditorState)
    requires ValidState(es) && Resolves(es) && MergeApplies(es)
    ensures var undone := Undo(DeleteRange(es));
      undone.content == es.content && undone.selection == es.selection &&
      undone.undoStack == es.undoStack && undone.redoStack == [DeleteRange(es).content]
    ensures Redo(Undo(DeleteRange(es))) == DeleteRange(es)
  {
  }

  /** With `endBlock.merge({text, type})`, the character list no longer matches the text once anything is cut. */
  lemma AsWrittenTailMisaligned(b: Block, offset: nat)
    requires WellFormedBlock(b) && 0 < offset <= |b.text|
    ensures !WellFormedBlock(TailBlockAsWritten(b, offset))
    ensures offset < |b.text| ==> TailBlockAsWritten(b, offset).chars[0] == b.chars[0]
  {
  }

  /** A bold first character: after cutting it off, the as-written tail shows the next character as bold. */
  lemma AsWrittenTailStyleShift()
    ensures var bold, plain := CharMetadata({"BOLD"}, None), CharMetadata({}, None);
      var b := Block("b2", "unstyled", "de", [bold, plain]);
      TailBlockAsWritten(b, 1).text == "e" &&
      TailBlockAsWritten(b, 1).chars[0] == bold &&
      TailBlock(b, 1).chars == [plain]
  {
  }
}
