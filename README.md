# Drink editor: the `delete` key handler

This project models the core of the Drink rich-text editor component
(`DrinkEditor` in `src/Editor.js`): its custom handler for the `delete` key
command, and the component field `editorState` that the handler replaces.

The document is an ordered sequence of draft-js blocks with unique keys. Each
block has a key, a block type, its text and one character-metadata entry per
character (inline styles and entity). The selection has an anchor and a focus,
each a block key and an offset, plus a backward flag. On `delete`, the handler
resolves the start and end of the selection. It acts only when the start block
is empty or the end block still has text after the end offset. It then keeps
the blocks before the start key, puts back the end block cut at the end offset
(when any of its text survives), and keeps the blocks after the end key. It
places a forward, collapsed caret at offset 0 of the surviving end block, or of
the block after the end key (none if there is none). The new content is pushed
onto the undo history and handed to the component's `onChange`. Any other
command, or a delete whose trigger is not met, is reported `not-handled` and
changes nothing.

The component binds `handleKeyCommand` (src/Editor.js:58) but `render` does
not pass it to the `<Editor>` of `draft-js-plugins-editor` (imported at
src/Editor.js:4, rendered at src/Editor.js:167-175), which wraps the draft-js
editor, so as the source stands the handler is never called. The model describes what the handler
does when it is called.

Modules:

- `Wrappers` (`wrappers.dfy`): `Option`. `None` stands for JavaScript's `undefined`.
- `Draft` (`draft.dfy`): the draft-js values the handler reads and builds. It
  has the block-map lookups it calls (`get`, `takeUntil`, `skipUntil().rest()`,
  `getKeyAfter`), selection start/end resolution, and `EditorState.push`,
  `undo` and `redo` as operations on an undo stack and a redo stack.
- `DeleteCommand` (`delete_command.dfy`): the handler as the pure function
  `KeyCommand`, with the splice `DeleteRange`.
- `KeyOrder` (`key_order.dfy`): order-preserving subsequences of key sequences.
- `DeleteProperties` (`delete_properties.dfy`): the lemmas about the splice, the caret and undo.
- `DrinkEditor` (`editor.dfy`): the component as a class. Its `editorState`
  field is replaced by `OnChange`, which `HandleKeyCommand` calls.
- `Scenarios` (`scenarios.dfy`): concrete runs of the handler.

The handler does not perform an idealised range delete:

- When the selection spans two blocks, the code drops the start block entirely.
  That includes its text before the start offset, which is never read. For
  `abc|def` selected from offset 3 of the first block to offset 1 of the second,
  the result is the single block `ef`, not `abc` followed by `ef`
  (`Scenarios.SelectAcrossBlocksDropsStart`).
- With a caret at offset 0 of a block that follows an empty block, the code
  keeps both blocks and still reports `handled` (`Scenarios.CaretAfterEmptyBlock`).
- With a collapsed caret inside a non-empty block, the text before the caret
  is removed (`Scenarios.CaretMidBlockRemovesPrefix`).
- When the trigger is not met, the code does not remove the range itself. It
  returns `not-handled`, which would let draft-js's default handling run if
  the handler were wired in; that default is not part of this model.
- When a selection key names no block, the code does not report a structural
  error. Reading the missing block's text throws a `TypeError`; the model's
  `TypeError` outcome stands for that.
- The surviving end block keeps its key. No new key is created.
- When the end block is the last block and is fully consumed, the caret key is
  `undefined` (`None`). If the start block was the first block, the document
  is left with no blocks at all (`Scenarios.EmptyStartToDocumentEnd`).

## Model

| member | source | states |
|---|---|---|
| `Draft.IndexOf` | src/Editor.js:90-91 | `blockMap.get(key)` finds the first block with that key, or reports that no block has it |
| `Draft.TakeUntil` | src/Editor.js:99 | the blocks before the start key form a prefix of the block map in which the start key does not occur, and the start key is the next block when there is one |
| `Draft.SkipUntilRest` | src/Editor.js:100 | the blocks after the end key are exactly the suffix after its position, and there are none when the key is absent |
| `Draft.KeyAfter` | src/Editor.js:102 | `getKeyAfter(endKey)` is the key of the block right after the end block, and undefined exactly when the end block is last or absent |
| `Draft.CreateEmpty` | src/Editor.js:45 | the empty editor state satisfies the draft-js invariants (unique keys, ordered selection) |
| `Draft.Selection.StartKey` | src/Editor.js:86 | the start key is the anchor's or the focus's key: the anchor's unless the selection is backward, and either when both are the same block |
| `Draft.Selection.EndKey` | src/Editor.js:87 | the end key is the focus's unless the selection is backward, and start and end key together are exactly the anchor and focus keys |
| `Draft.Selection.StartOffset` | src/Editor.js:88 | the start offset is the anchor's or the focus's offset, the anchor's unless the selection is backward |
| `Draft.Selection.EndOffset` | src/Editor.js:89 | the (start key, start offset) and (end key, end offset) positions are the anchor and focus positions, one each; the end is the focus unless the selection is backward |
| `Draft.ContentFromBlocks` | src/Editor.js:44 | the decoded content holds the given blocks, and both recorded selections are a forward caret at offset 0 on the first block, or keyless when there are no blocks |
| `Draft.Push` | src/Editor.js:134 | the pushed content becomes current with its selection-after as the selection, the old content goes on the undo stack, redo is cleared, and undo then restores the old content and the old selection |
| `DeleteCommand.StartIndex` | src/Editor.js:86-90 | the start block is the block whose key is the selection's start key, taking the backward flag into account |
| `DeleteCommand.EndIndex` | src/Editor.js:87-91 | the end block is the block whose key is the selection's end key, taking the backward flag into account |
| `DeleteCommand.Resolves` | src/Editor.js:90-95 | the selection resolves exactly when both its start and end keys are defined and name blocks of the content; otherwise reading the block's text throws |
| `DeleteCommand.KeepsTail` | src/Editor.js:105 | either a non-empty tail of the end block survives, the end block's text being the selected part followed by it, or the end offset reaches the end of the end block |
| `DeleteCommand.MergeApplies` | src/Editor.js:95 | the handler fires exactly when the start block is empty or a replacement block is produced |
| `DeleteCommand.TailBlock` | src/Editor.js:105-110 | the replacement block has the end block's key and type, its text is what follows the end offset, and each kept character keeps its own metadata (corrected; see Findings) |
| `DeleteCommand.TailBlockAsWritten` | src/Editor.js:106-109 | `endBlock.merge({text, type})` keeps key and type and cuts the text, but keeps the whole original character list |
| `DeleteCommand.Replacement` | src/Editor.js:104-113 | at most one block is put between the kept blocks, and there is one exactly when the end offset is below the end block's text length |
| `DeleteCommand.CaretAt` | src/Editor.js:124-130 | the new selection is collapsed, forward, at offset 0 of the focus key on both ends, and keeps the old focus flag |
| `DeleteCommand.Splice` | src/Editor.js:117 | the concatenation of the blocks before, the replacement and the blocks after has the sum of their lengths |
| `DeleteCommand.DeleteRange` | src/Editor.js:83-134 | when fired: the new blocks are the blocks before the start block, then the replacement if any, then the blocks after the end block; the caret key is the end key if a tail was kept, otherwise the key after the end block or undefined; `selectionBefore` is the old selection; the old content is pushed on the undo stack |
| `DeleteCommand.KeyCommand` | src/Editor.js:77-143 | any command but `delete` is not handled; a selection key naming no block throws; the handler fires exactly when the start block is empty or the end offset is below the end block's length, and then yields `DeleteRange` |
| `DeleteProperties.SpliceAt` | src/Editor.js:99-117 | a block before the range stays at its index, and a block after the range moves left by the number of removed positions, unchanged |
| `DeleteProperties.SpliceKeysSubsequence` | src/Editor.js:99-117 | removing a block range and putting back at most the end block gives keys that are an order-preserving subsequence of the old keys |
| `DeleteProperties.SpliceSurvivor` | src/Editor.js:99-117 | with unique keys, a block survives the splice exactly when it lies outside the range, or is the end block and is replaced |
| `DeleteProperties.DeleteKeysSubsequence` | src/Editor.js:99-117 | after a handled delete, the block keys are an order-preserving subsequence of the old keys |
| `DeleteProperties.DeleteKeepsKeysUnique` | src/Editor.js:99-117 | after a handled delete, keys are still unique and every key already existed |
| `DeleteProperties.DeletePreservesValidity` | src/Editor.js:117-134 | the state after a handled delete again satisfies the draft-js invariants |
| `DeleteProperties.DeleteSurvivors` | src/Editor.js:88-117 | a block survives exactly when it is before the start block, after the end block, or is the end block with a kept tail; the start block of a multi-block range is removed whatever the start offset |
| `DeleteProperties.DeleteCaretOnFirstSurvivor` | src/Editor.js:102-130 | when the caret has a key, it is the first surviving block after the deleted range; it has none exactly when the end block was last and fully consumed, and the document then ends where the start block was |
| `DeleteProperties.DeletePreservesWellFormedness` | src/Editor.js:105-117 | with the corrected tail, every block still has one metadata entry per character after a delete |
| `DeleteProperties.UndoDeleteRestores` | src/Editor.js:121-134 | undo after a handled delete restores the old content and the old selection (through `selectionBefore`), and redo then restores the result |
| `DeleteProperties.AsWrittenTailMisaligned` | src/Editor.js:106-109 | as written, cutting any text off a well-formed end block leaves more metadata entries than characters, and the first kept character gets the first original character's metadata |
| `DeleteProperties.AsWrittenTailStyleShift` | src/Editor.js:106-109 | concrete case: cutting off a bold first character makes the next, plain character carry the bold metadata |
| `DrinkEditor.Editor.constructor` | src/Editor.js:37-46 | mounting gives an empty editor state, or the raw document pushed onto an empty state, and the draft-js invariants hold |
| `DrinkEditor.Editor.OnChange` | src/Editor.js:48-51 | the new content goes to the host's `onChange` and the new state becomes the component's `editorState` |
| `DrinkEditor.Editor.HandleKeyCommand` | src/Editor.js:77-143 | returns `handled` exactly when the command is `delete` and the trigger holds, and then the state becomes `DeleteRange` of the old one and is published; otherwise the state is unchanged; a missing selection key throws; the invariants are kept |
| `Scenarios.SelectWithinBlock` | src/Editor.js:95-130 | deleting `Hello` from `Hello world` leaves ` world` under the same key, with the caret at its start |
| `Scenarios.SelectAcrossBlocksDropsStart` | src/Editor.js:88-117 | a range from the end of `abc` to offset 1 of `def` leaves only `ef`; the start block is dropped |
| `Scenarios.CaretAfterEmptyBlock` | src/Editor.js:95-117 | a caret at the start of a block after an empty block is handled and leaves both blocks as they were |
| `Scenarios.CaretMidBlockRemovesPrefix` | src/Editor.js:95-110 | a caret at offset 2 of `abcd` leaves `cd` |
| `Scenarios.EmptyStartToDocumentEnd` | src/Editor.js:95-130 | from an empty first block to the end of the last block, every block is removed and the caret key is undefined |
| `Scenarios.ParaTail` | src/Editor.js:105-110 | cutting an unstyled paragraph gives the unstyled paragraph of the remaining text, under the same key |
| `Scenarios.StyledTailKeepsOwnStyle` | src/Editor.js:95-130 | with the corrected tail, deleting a bold first character through the handler leaves the kept character plain |
| `Scenarios.WholeBlockNotHandled` | src/Editor.js:95-142 | a non-empty block selected to its end does not meet the trigger and is not handled |

## Findings

| source | as written | input that shows it | evidently intended | confidence | as-written member | corrected member |
|---|---|---|---|---|---|---|
| src/Editor.js:106-109 | `endBlock.merge({text: ..slice(endOffset), type})` cuts the text but not the block's character list | end block `de`, `d` bold and `e` plain, end offset 1: text `e` with metadata `[bold, plain]`, so `e` carries `d`'s bold style and the list is one entry too long | cut the character list at the end offset together with the text, as draft-js's own range removal does | medium; not executed | `DeleteProperties.AsWrittenTailStyleShift` | `DeleteCommand.TailBlock` |

`DeleteCommand.DeleteRange` uses the corrected `TailBlock`. Key, type and text
are the same as written; only the character list differs.

## Left out

- `onTab` (src/Editor.js:53-56): it delegates to `RichUtils.onTab` of draft-js with a maximum depth of 4. That logic is not in this repository.
- `renderPlugins` and `render` (src/Editor.js:61-75, 145-180), the JSX, the CSS imports and `blockRenderMap` (src/Editor.js:12-21): presentation only.
- `convertFromRaw` and `convertToRaw` (src/Editor.js:44, 49): raw snapshots are modelled as the block list itself.
- The random key `EditorState.createEmpty` gives its block is a constructor parameter.
- `EditorState.push` (src/Editor.js:44, 134) is called without a change type, so draft-js always starts a new undo entry, as the model does. `lastChangeType`, `forceSelection` and the other editor-state flags are not modelled.
- Text lengths and offsets count Unicode scalar values (Dafny's `string`), while `getText().length` and `slice` (src/Editor.js:95, 105, 107) count UTF-16 code units. For text with characters outside the Basic Multilingual Plane the two disagree: for the block `😀a` with a caret at draft-js offset 2, the source fires and keeps `a`, while the model's offset 2 is already the end of the text.
- `DeleteCommand.KeyCommand`, `DeleteCommand.DeleteRange`: they require unique block keys, which the ordered block map guarantees, and a start block that does not come after the end block, which draft-js's own selection handling maintains. A hand-built selection with a wrong `isBackward` (for instance passed to `forceSelection`) breaks the second; there Immutable's `toOrderedMap` merges the duplicated blocks, and that case is not modelled.
- `DrinkEditor.Editor.HandleKeyCommand`: a thrown `TypeError` is reported through the `threw` out-parameter with the state unchanged, not as an exception that propagates to the caller.
- Block depth, block data, the entity map and content fields other than the blocks and the two recorded selections: the handler copies them unchanged.
- What draft-js does next with a caret whose key is undefined, or with a document left with no blocks.
- src/Drink.js only re-exports. The tooltip enhancer test and the block alignment button are plugin UI and are not part of this model.
