/** The `DrinkEditor` component's state handling: its `editorState` field and the key-command handler. */
module DrinkEditor {
  import opened Wrappers
  import opened Draft
  import DC = DeleteCommand
  import DeleteProperties

  /** The value `handleKeyCommand` returns to draft-js. */
  datatype DraftHandleValue = Handled | NotHandled

  class Editor {
    /** The component's `state.editorState`, replaced on every change. */
    var editorState: EditorState
    /** Block lists handed, in order, to the host's `onChange` prop (as raw snapshots). */
    var published: seq<seq<Block>>

    ghost predicate Valid()
      reads this
    {
      ValidState(editorState)
    }

    /**
     * Mounting: an empty editor state, with the given raw document pushed
     * onto it when there is one. `emptyKey` stands for the random key
     * `EditorState.createEmpty` gives its single block.
     */
    constructor (state: Option<seq<Block>>, emptyKey: Key)
      requires state.Some? ==> DistinctKeys(state.value)
      ensures Valid()
      ensures state.None? ==> editorState == CreateEmpty(emptyKey)
      ensures state.Some? ==> editorState == Push(CreateEmpty(emptyKey), ContentFromBlocks(state.value))
      ensures published == []
    {
      if state.Some? {
        editorState := Push(CreateEmpty(emptyKey), ContentFromBlocks(state.value));
      } else {
        editorState := CreateEmpty(emptyKey);
      }
      published := [];
    }

    /** `this.onChange`: report the new content to the host, then make `next` the current state. */
    method OnChange(next: EditorState)
      requires ValidState(next)
      modifies this
      ensures Valid()
      ensures editorState == next
      ensures published == old(published) + [next.content.blocks]
    {
      published := published + [next.content.blocks];
      editorState := next;
    }

    /**
     * `handleKeyCommand(command)`. On `delete` with the trigger met, the
     * spliced state replaces the current one and `Handled` is returned;
     * otherwise nothing changes and `NotHandled` is returned. `threw` is set
     * when the selection names a block the content lacks (a TypeError in the
     * component), and nothing changes then either.
     */
    method HandleKeyCommand(command: string) returns (value: DraftHandleValue, threw: bool)
      requires Valid()
      modifies this
      ensures Valid()
      ensures threw <==> command == "delete" && !DC.Resolves(old(editorState))
      ensures value == Handled <==>
        command == "delete" && DC.Resolves(old(editorState)) && DC.MergeApplies(old(editorState))
      ensures value == Handled ==>
        editorState == DC.DeleteRange(old(editorState)) &&
        published == old(published) + [editorState.content.blocks]
      ensures value == NotHandled ==> editorState == old(editorState) && published == old(published)
    {
      var outcome := DC.KeyCommand(editorState, command);
      if outcome.Handled? {
        DeleteProperties.DeletePreservesValidity(editorState);
        OnChange(outcome.next);
        value, threw := Handled, false;
      } else {
        value, threw := NotHandled, outcome.TypeError?;
      }
    }
  }
}
