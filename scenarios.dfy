/** Concrete runs of the delete handler, worked out from its definition. */
module Scenarios {
  import opened Wrappers
  import opened Draft
  import opened DeleteCommand

  const Plain := CharMetadata({}, None)
  const Bold := CharMetadata({"BOLD"}, None)

  /** An unstyled paragraph: one plain metadata entry per character. */
  function Para(k: Key, text: string): (b: Block)
    ensures WellFormedBlock(b)
  {
    Block(k, "paragraph", text, seq(|text|, _ => Plain))
  }

  /** Cutting an unstyled paragraph gives the unstyled paragraph of the remaining text. */
  lemma ParaTail(k: Key, text: string, offset: nat)
    requires offset <= |text|
    ensures TailBlock(Para(k, text), offset) == Para(k, text[offset..])
  {
    assert TailBlock(Para(k, text), offset).chars == Para(k, text[offset..]).chars;
  }

  function StateOf(bs: seq<Block>, sel: Selection): EditorState {
    var c := ContentFromBlocks(bs);
    EditorState(c, sel, [], [])
  }

  function Range(ak: Key, ao: nat, fk: Key, fo: nat): Selection {
    Selection(Some(ak), ao, Some(fk), fo, false, true)
  }

  /** Selecting "Hello" in one block leaves " world" under the same key, caret at its start. */
  lemma SelectWithinBlock()
    ensures var es := StateOf([Para("a1", "Hello world")], Range("a1", 0, "a1", 5));
      ValidState(es) &&
      KeyCommand(es, "delete") ==
        Handled(Push(es, ContentState([Para("a1", " world")], es.selection,
                                      CaretAt(es.selection, Some("a1")))))
  {
    var es := StateOf([Para("a1", "Hello world")], Range("a1", 0, "a1", 5));
    assert IndexOf(es.content.blocks, "a1") == Some(0);
    ParaTail("a1", "Hello world", 5);
    assert "Hello world"[5..] == " world";
  }

  /** Across two blocks the start block is dropped whole, text before the start offset included. */
  lemma SelectAcrossBlocksDropsStart()
    ensures var es := StateOf([Para("b1", "abc"), Para("b2", "def")], Range("b1", 3, "b2", 1));
      ValidState(es) &&
      KeyCommand(es, "delete") ==
        Handled(Push(es, ContentState([Para("b2", "ef")], es.selection,
                                      CaretAt(es.selection, Some("b2")))))
  {
    var es := StateOf([Para("b1", "abc"), Para("b2", "def")], Range("b1", 3, "b2", 1));
    assert IndexOf(es.content.blocks, "b1") == Some(0);
    assert IndexOf(es.content.blocks, "b2") == Some(1);
    ParaTail("b2", "def", 1);
    assert "def"[1..] == "ef";
  }

  /** A caret at the start of a block after an empty one: reported handled, and no block changes. */
  lemma CaretAfterEmptyBlock()
    ensures var es := StateOf([Para("c1", ""), Para("c2", "x")], Range("c2", 0, "c2", 0));
      ValidState(es) &&
      KeyCommand(es, "delete") ==
        Handled(Push(es, ContentState(es.content.blocks, es.selection,
                                      CaretAt(es.selection, Some("c2")))))
  {
  }

  /** A collapsed caret inside a non-empty block removes the text before the caret. */
  lemma CaretMidBlockRemovesPrefix()
    ensures var es := StateOf([Para("m", "abcd")], Range("m", 2, "m", 2));
      ValidState(es) &&
      KeyCommand(es, "delete") ==
        Handled(Push(es, ContentState([Para("m", "cd")], es.selection,
                                      CaretAt(es.selection, Some("m")))))
  {
    var es := StateOf([Para("m", "abcd")], Range("m", 2, "m", 2));
    assert IndexOf(es.content.blocks, "m") == Some(0);
    ParaTail("m", "abcd", 2);
    assert "abcd"[2..] == "cd";
  }

  /** From an empty first block to the end of the last block: every block goes and the caret has no key. */
  lemma EmptyStartToDocumentEnd()
    ensures var es := StateOf([Para("e1", ""), Para("e2", "yz")], Range("e1", 0, "e2", 2));
      ValidState(es) &&
      KeyCommand(es, "delete") ==
        Handled(Push(es, ContentState([], es.selection, CaretAt(es.selection, None))))
  {
  }

  /** A whole non-empty block selected to its end: the trigger is not met. */
  lemma WholeBlockNotHandled()
    ensures var es := StateOf([Para("f1", "ab")], Range("f1", 0, "f1", 2));
      ValidState(es) && KeyCommand(es, "delete") == NotHandled
  {
  }

  /** Deleting a bold first character: the kept character stays plain. */
  lemma StyledTailKeepsOwnStyle()
    ensures var es := StateOf([Block("s1", "paragraph", "de", [Bold, Plain])], Range("s1", 1, "s1", 1));
      ValidState(es) &&
      KeyCommand(es, "delete") ==
        Handled(Push(es, ContentState([Block("s1", "paragraph", "e", [Plain])], es.selection,
                                      CaretAt(es.selection, Some("s1")))))
  {
    var es := StateOf([Block("s1", "paragraph", "de", [Bold, Plain])], Range("s1", 1, "s1", 1));
    assert IndexOf(es.content.blocks, "s1") == Some(0);
    assert "de"[1..] == "e";
  }
}
