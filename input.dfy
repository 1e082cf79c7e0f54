/** The `Input` component as an object: the draft and the tag list are two
    state cells that the event handlers write step by step, and the open
    confirmation prompt is a third cell that its OK or Cancel resolves. Each
    handler is proved to end in the state the matching TagEntry transition
    gives, and to keep every tag non-empty. */
module InputComponent {
  import opened TagList
  import TagEntry

  class Input {
    /** The component's props (`confirmTagDelete`, `tagBackspaceDeleteBehavior`,
        `showRemoveButton`); they do not change while the control is mounted. */
    const props: TagEntry.Config
    var inputValue: string
    var tagsList: seq<Tag>
    /** The index captured by the prompt that is open, if one is. */
    var pendingTagIndex: Option<int>

    ghost predicate Valid()
      reads this
    {
      AllNonEmpty(tagsList)
    }

    /** The state record these fields make up. */
    function Snapshot(): (r: TagEntry.State)
      reads this
    {
      TagEntry.State(inputValue, tagsList, pendingTagIndex)
    }

    predicate PromptClosed()
      reads this
    {
      pendingTagIndex.None?
    }

    constructor (props: TagEntry.Config)
      ensures Valid() && this.props == props
      ensures Snapshot() == TagEntry.Mount()
    {
      this.props := props;
      inputValue := "";
      tagsList := [];
      pendingTagIndex := None;
    }

    /** Sets the draft and hands the same text to `onChangeText`. */
    method HandleTextChange(text: string) returns (notified: string)
      requires Valid() && PromptClosed()
      modifies this
      ensures Valid()
      ensures inputValue == text && tagsList == old(tagsList) && pendingTagIndex == old(pendingTagIndex)
      ensures Snapshot() == TagEntry.TextChange(old(Snapshot()), text).next
      ensures TagEntry.TextChange(old(Snapshot()), text).onChangeText == Some(notified)
    {
      inputValue := text;
      notified := text;
    }

    /** Filters the index out of the current list. */
    method RemoveTag(index: int)
      requires Valid()
      modifies this
      ensures Valid()
      ensures tagsList == WithoutIndex(old(tagsList), index)
      ensures inputValue == old(inputValue) && pendingTagIndex == old(pendingTagIndex)
    {
      WithoutIndexKeepsNonEmpty(tagsList, index);
      tagsList := WithoutIndex(tagsList, index);
    }

    /** Confirms first when `confirmTagDelete` is set, else removes at once. */
    method HandleTagRemoveIconPress(index: int)
      requires Valid() && PromptClosed()
      modifies this
      ensures Valid()
      ensures Snapshot() == TagEntry.RemoveIconPress(props, old(Snapshot()), index)
    {
      if props.confirmTagDelete {
        RemoveTagAfterConfirm(index);
        return;
      }
      RemoveTag(index);
    }

    /** Only a backspace goes on to the backspace handling. */
    method HandleKeyPress(key: string)
      requires Valid() && PromptClosed()
      modifies this
      ensures Valid()
      ensures Snapshot() == TagEntry.KeyPress(props, old(Snapshot()), key)
    {
      var isBackspace := TagEntry.IsBackspace(key);
      if isBackspace {
        HandleBackspacePress();
      }
    }

    /** Commits a non-empty draft and clears it; otherwise asks for a blur. */
    method HandleSubmitEditing() returns (blur: bool)
      requires Valid() && PromptClosed()
      modifies this
      ensures Valid()
      ensures Snapshot() == TagEntry.Submit(old(Snapshot())).next
      ensures blur == TagEntry.Submit(old(Snapshot())).blur
      ensures old(inputValue) != "" ==>
        tagsList == old(tagsList) + [old(inputValue)] && inputValue == "" && !blur
      ensures old(inputValue) == "" ==> unchanged(this) && blur
    {
      if |inputValue| > 0 {
        tagsList := tagsList + [inputValue];
        inputValue := "";
        blur := false;
      } else {
        blur := true;
      }
    }

    /** A backspace reaches the tags only when the draft is empty. */
    method HandleBackspacePress()
      requires Valid() && PromptClosed()
      modifies this
      ensures Valid()
      ensures Snapshot() == TagEntry.BackspacePress(props, old(Snapshot()))
    {
      var isEmpty := IsCurrentInputEmpty();
      if isEmpty {
        HandleRemoveTag();
      }
    }

    function IsCurrentInputEmpty(): (r: bool)
      reads this
    {
      |inputValue| == 0
    }

    /** Dispatches on `tagBackspaceDeleteBehavior`; an unrecognised value
        does nothing. */
    method HandleRemoveTag()
      requires Valid() && PromptClosed()
      modifies this
      ensures Valid()
      ensures Snapshot() == TagEntry.RemoveByBehavior(props, old(Snapshot()))
    {
      match props.tagBackspaceDeleteBehavior {
        case Delete => RemoveLastTag();
        case DeleteModify => RemoveLastTagAndSetInputValue();
        case DeleteConfirm => RemoveTagAfterConfirm(GetLastTagIndex());
        case Unrecognized =>
      }
    }

    /** Drops the last tag; an empty list is left alone. */
    method RemoveLastTag()
      requires Valid()
      modifies this
      ensures Valid()
      ensures tagsList == WithoutLast(old(tagsList))
      ensures old(tagsList) != [] ==> tagsList == old(tagsList)[..|old(tagsList)| - 1]
      ensures inputValue == old(inputValue) && pendingTagIndex == old(pendingTagIndex)
    {
      if |tagsList| == 0 {
        return;
      }
      tagsList := WithoutLast(tagsList);
    }

    /** Reads the last tag, drops it from the list, then loads it into the
        draft when it has text. */
    method RemoveLastTagAndSetInputValue()
      requires Valid()
      modifies this
      ensures Valid()
      ensures Snapshot() == TagEntry.RemoveLastTagAndLoad(old(Snapshot()))
      ensures old(tagsList) != [] ==>
        tagsList == old(tagsList)[..|old(tagsList)| - 1] &&
        inputValue == old(tagsList)[|old(tagsList)| - 1]
      ensures old(tagsList) == [] ==> inputValue == old(inputValue) && tagsList == []
      ensures pendingTagIndex == old(pendingTagIndex)
    {
      var lastTag := GetLastTag();
      RemoveLastTag();
      if lastTag.Some? && lastTag.value != "" {
        inputValue := lastTag.value;
      }
    }

    /** Opens the prompt, capturing the index now. */
    method RemoveTagAfterConfirm(tagIndex: int)
      requires PromptClosed()
      modifies this
      ensures Valid() <==> old(Valid())
      ensures pendingTagIndex == Some(tagIndex)
      ensures inputValue == old(inputValue) && tagsList == old(tagsList)
      ensures Snapshot() == TagEntry.RequestConfirm(old(Snapshot()), tagIndex)
    {
      pendingTagIndex := Some(tagIndex);
    }

    /** The prompt's OK or Cancel: OK removes the captured index. */
    method ResolveConfirmation(choice: TagEntry.Choice)
      requires Valid() && !PromptClosed()
      modifies this
      ensures Valid() && PromptClosed()
      ensures Snapshot() == TagEntry.Resolve(old(Snapshot()), choice)
      ensures choice == TagEntry.Cancel ==> inputValue == old(inputValue) && tagsList == old(tagsList)
    {
      if choice == TagEntry.Ok {
        RemoveTag(pendingTagIndex.value);
      }
      pendingTagIndex := None;
    }

    function GetLastTagIndex(): (r: int)
      reads this
    {
      LastIndex(tagsList)
    }

    function GetLastTag(): (r: Option<Tag>)
      reads this
    {
      Last(tagsList)
    }

    /** The descriptors handed to the tag list renderer. */
    function RenderTags(): (r: seq<TagEntry.TagDescriptor>)
      reads this
    {
      TagEntry.RenderTags(tagsList, props.showRemoveButton)
    }
  }

  /** A session driven through the handlers' contracts alone. */
  method ExampleSession() {
    var input := new Input(TagEntry.Config(false, TagEntry.Delete, true));
    var notified := input.HandleTextChange("red");
    assert notified == "red";
    var blur := input.HandleSubmitEditing();
    assert input.tagsList == ["red"] && input.inputValue == "" && !blur;
    notified := input.HandleTextChange("blue");
    blur := input.HandleSubmitEditing();
    assert input.tagsList == ["red", "blue"];
    var tags := input.RenderTags();
    assert |tags| == 2 && tags[1].text == "blue" && tags[1].removeIcon == TagEntry.RemoveIconFor(1);
    input.HandleKeyPress("Backspace");
    assert input.tagsList == ["red"];
    tags := input.RenderTags();
    assert tags[0].removeIcon.RemoveIconFor? && tags[0].removeIcon.index == 0;
    input.HandleTagRemoveIconPress(tags[0].removeIcon.index);
    WithoutIndexSplice(["red"], 0);
    assert input.tagsList == [];
    blur := input.HandleSubmitEditing();
    assert blur && input.tagsList == [];
  }
}
