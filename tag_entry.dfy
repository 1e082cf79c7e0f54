/** The tag-entry control as a state record with one pure transition per
    event. The state is the draft text, the committed tag list and the
    confirmation prompt that may be open; the configuration is the control's
    props. These functions define what each event does; the class in
    InputComponent performs the same updates step by step. */
module TagEntry {
  import opened TagList

  /** `tagBackspaceDeleteBehavior`; `Unrecognized` stands for the prop left
      unset or set to anything else, which the switch has no case for. */
  datatype BackspaceBehavior = Delete | DeleteModify | DeleteConfirm | Unrecognized

  datatype Config = Config(
    confirmTagDelete: bool,
    tagBackspaceDeleteBehavior: BackspaceBehavior,
    showRemoveButton: bool)

  /** `pending` is the tag index captured when a confirmation prompt opened,
      while it is open. */
  datatype State = State(draft: string, tags: seq<Tag>, pending: Option<int>)

  /** The two buttons of the confirmation prompt. */
  datatype Choice = Cancel | Ok

  /** What an event does outside the state: the text passed to the
      `onChangeText` prop, and whether the text field is asked to blur. */
  datatype Reaction = Reaction(next: State, onChangeText: Option<string>, blur: bool)

  /** The remove-icon props of one tag: none, or a visible icon whose press
      is a remove-icon press for the bound index. */
  datatype RemoveIcon = NoRemoveIcon | RemoveIconFor(index: int)

  datatype TagDescriptor = TagDescriptor(key: int, text: Tag, removeIcon: RemoveIcon)

  /** A freshly mounted control: empty draft, no tags, no prompt. */
  function Mount(): (r: State) {
    State("", [], None)
  }

  /** The prompt is modal: while it is open, its resolution is the only event
      the control receives. */
  predicate Idle(s: State) {
    s.pending.None?
  }

  /** An invariant of every state the control can reach: its tags all have
      text (`EventsPreserveReachable`). */
  predicate Reachable(s: State) {
    AllNonEmpty(s.tags)
  }

  predicate IsBackspace(key: string) {
    key == "Backspace"
  }

  /** The text field's change event. */
  function TextChange(s: State, text: string): (r: Reaction)
    requires Idle(s)
  {
    Reaction(s.(draft := text), Some(text), false)
  }

  /** The text field's submit event: commit a non-empty draft, or ask the
      field to blur. */
  function Submit(s: State): (r: Reaction)
    requires Idle(s)
  {
    if |s.draft| > 0 then Reaction(s.(tags := s.tags + [s.draft], draft := ""), None, false)
    else Reaction(s, None, true)
  }

  /** Open the confirmation prompt for `index`, captured now. */
  function RequestConfirm(s: State, index: int): (r: State)
    requires Idle(s)
  {
    s.(pending := Some(index))
  }

  /** The prompt's resolution: OK removes the captured index from the list,
      Cancel changes nothing; either way the prompt closes. */
  function Resolve(s: State, choice: Choice): (r: State)
    requires s.pending.Some?
  {
    var t := if choice == Ok then s.(tags := WithoutIndex(s.tags, s.pending.value)) else s;
    t.(pending := None)
  }

  /** Remove the last tag and, when it had text, load it into the draft. */
  function RemoveLastTagAndLoad(s: State): (r: State) {
    var last := Last(s.tags);
    var t := s.(tags := WithoutLast(s.tags));
    if last.Some? && last.value != "" then t.(draft := last.value) else t
  }

  /** Backspace on an empty draft, dispatched on the configured behaviour. */
  function RemoveByBehavior(cfg: Config, s: State): (r: State)
    requires Idle(s)
  {
    match cfg.tagBackspaceDeleteBehavior
    case Delete => s.(tags := WithoutLast(s.tags))
    case DeleteModify => RemoveLastTagAndLoad(s)
    case DeleteConfirm => RequestConfirm(s, LastIndex(s.tags))
    case Unrecognized => s
  }

  /** A backspace: only an empty draft lets it reach the tags. */
  function BackspacePress(cfg: Config, s: State): (r: State)
    requires Idle(s)
  {
    if |s.draft| == 0 then RemoveByBehavior(cfg, s) else s
  }

  /** The text field's key-press event. */
  function KeyPress(cfg: Config, s: State, key: string): (r: State)
    requires Idle(s)
  {
    if IsBackspace(key) then BackspacePress(cfg, s) else s
  }

  /** A press on the remove icon of the tag at `index`. */
  function RemoveIconPress(cfg: Config, s: State, index: int): (r: State)
    requires Idle(s)
  {
    if cfg.confirmTagDelete then RequestConfirm(s, index)
    else s.(tags := WithoutIndex(s.tags, index))
  }

  /** The descriptor of the tag `tag` at `index`. */
  function RenderTag(tag: Tag, index: int, showRemoveButton: bool): (r: TagDescriptor) {
    TagDescriptor(index, tag, if showRemoveButton then RemoveIconFor(index) else NoRemoveIcon)
  }

  /** The tag list rendered: one descriptor per tag, in list order. */
  function RenderTags(tags: seq<Tag>, showRemoveButton: bool): (r: seq<TagDescriptor>)
    ensures |r| == |tags|
    ensures forall i :: 0 <= i < |tags| ==>
      r[i].key == i && r[i].text == tags[i] &&
      (r[i].removeIcon.RemoveIconFor? <==> showRemoveButton) &&
      (showRemoveButton ==> r[i].removeIcon.index == i)
  {
    seq(|tags|, i requires 0 <= i < |tags| => RenderTag(tags[i], i, showRemoveButton))
  }

  /** Pressing the remove icon a descriptor carries. */
  function PressRemoveIcon(cfg: Config, s: State, d: TagDescriptor): (r: State)
    requires Idle(s) && d.removeIcon.RemoveIconFor?
  {
    RemoveIconPress(cfg, s, d.removeIcon.index)
  }

  /** Type the drafts one after another, submitting each. */
  function TypeAndSubmitEach(s: State, drafts: seq<string>): (r: State)
    requires Idle(s)
    decreases |drafts|
  {
    if drafts == [] then s
    else TypeAndSubmitEach(Submit(TextChange(s, drafts[0]).next).next, drafts[1..])
  }

  // ---------------------------------------------------------------------
  // Text change and submit

  /** A text change sets the draft to exactly the text, leaves the tags and
      the prompt alone, and reports the same text to `onChangeText`. */
  lemma TextChangeSetsDraft(s: State, text: string)
    requires Idle(s)
    ensures TextChange(s, text).next.draft == text
    ensures TextChange(s, text).next.tags == s.tags
    ensures TextChange(s, text).next.pending == s.pending
    ensures TextChange(s, text).onChangeText == Some(text)
    ensures !TextChange(s, text).blur
  {
  }

  /** The latest text change wins. */
  lemma TextChangeLastWins(s: State, a: string, b: string)
    requires Idle(s)
    ensures TextChange(TextChange(s, a).next, b).next == TextChange(s, b).next
  {
  }

  /** Submit with a draft appends it to the end of the list and clears the
      draft; submit without one changes nothing and only asks for a blur. */
  lemma SubmitCommitsOrBlurs(s: State)
    requires Idle(s)
    ensures |s.draft| > 0 ==>
      Submit(s).next.tags == s.tags + [s.draft] && Submit(s).next.draft == "" &&
      Submit(s).next.pending == s.pending && !Submit(s).blur
    ensures |s.draft| == 0 ==> Submit(s).next == s && Submit(s).blur
    ensures Submit(s).onChangeText.None?
  {
  }

  /** Typing `n` non-empty drafts, submitting each, appends exactly those `n`
      tags, in submission order, after the tags already there. */
  lemma {:induction false} TypeAndSubmitEachAppends(s: State, drafts: seq<string>)
    requires Idle(s)
    requires forall k :: 0 <= k < |drafts| ==> drafts[k] != ""
    ensures TypeAndSubmitEach(s, drafts).tags == s.tags + drafts
    ensures |TypeAndSubmitEach(s, drafts).tags| == |s.tags| + |drafts|
    ensures TypeAndSubmitEach(s, drafts).draft == if drafts == [] then s.draft else ""
    ensures TypeAndSubmitEach(s, drafts).pending == s.pending
    decreases |drafts|
  {
    if drafts != [] {
      var s' := Submit(TextChange(s, drafts[0]).next).next;
      assert s'.tags == s.tags + [drafts[0]];
      TypeAndSubmitEachAppends(s', drafts[1..]);
      assert s.tags + [drafts[0]] + drafts[1..] == s.tags + drafts;
    }
  }

  // ---------------------------------------------------------------------
  // Key presses and the three backspace behaviours

  /** A key other than backspace, or a backspace while the draft has text,
      changes nothing. */
  lemma KeyPressIgnored(cfg: Config, s: State, key: string)
    requires Idle(s)
    requires key != "Backspace" || s.draft != ""
    ensures KeyPress(cfg, s, key) == s
  {
  }

  /** With the behaviour unset or unrecognised, even a backspace on an empty
      draft changes nothing. */
  lemma BackspaceUnrecognizedIgnored(cfg: Config, s: State)
    requires Idle(s) && cfg.tagBackspaceDeleteBehavior == Unrecognized
    ensures KeyPress(cfg, s, "Backspace") == s
  {
  }

  /** `delete`: backspace on an empty draft drops the last tag, if any, and
      nothing else. */
  lemma BackspaceDelete(cfg: Config, s: State)
    requires Idle(s) && s.draft == "" && cfg.tagBackspaceDeleteBehavior == Delete
    ensures s.tags != [] ==> KeyPress(cfg, s, "Backspace") == s.(tags := s.tags[..|s.tags| - 1])
    ensures s.tags == [] ==> KeyPress(cfg, s, "Backspace") == s
  {
  }

  /** `delete`: a submit followed by a backspace restores the tag list. */
  lemma BackspaceDeleteUndoesSubmit(cfg: Config, s: State)
    requires Idle(s) && s.draft != "" && cfg.tagBackspaceDeleteBehavior == Delete
    ensures KeyPress(cfg, Submit(s).next, "Backspace") == s.(draft := "")
  {
    WithoutLastUndoesAppend(s.tags, s.draft);
  }

  /** `delete-modify`: backspace on an empty draft moves the last tag back into
      the draft; with no tags it changes nothing. */
  lemma BackspaceDeleteModify(cfg: Config, s: State)
    requires Idle(s) && Reachable(s) && s.draft == ""
    requires cfg.tagBackspaceDeleteBehavior == DeleteModify
    ensures s.tags != [] ==>
      KeyPress(cfg, s, "Backspace") ==
        s.(tags := s.tags[..|s.tags| - 1], draft := s.tags[|s.tags| - 1])
    ensures s.tags == [] ==> KeyPress(cfg, s, "Backspace") == s
  {
  }

  /** `delete-modify` and submit are inverse: moving the last tag into the
      draft and submitting it again gives back the state before. */
  lemma {:induction false} DeleteModifyThenSubmitRestores(cfg: Config, s: State)
    requires Idle(s) && Reachable(s) && s.draft == ""
    requires cfg.tagBackspaceDeleteBehavior == DeleteModify
    ensures Submit(KeyPress(cfg, s, "Backspace")).next == s
  {
    BackspaceDeleteModify(cfg, s);
    if s.tags != [] {
      assert s.tags[..|s.tags| - 1] + [s.tags[|s.tags| - 1]] == s.tags;
    }
  }

  /** `delete-confirm`: backspace on an empty draft only opens a prompt for
      the last index, which is -1 when the list is empty. */
  lemma BackspaceDeleteConfirmAsks(cfg: Config, s: State)
    requires Idle(s) && s.draft == "" && cfg.tagBackspaceDeleteBehavior == DeleteConfirm
    ensures KeyPress(cfg, s, "Backspace") == s.(pending := Some(|s.tags| - 1))
  {
  }

  /** `delete-confirm`: Cancel leaves the state as it was before the
      backspace. */
  lemma BackspaceDeleteConfirmCancel(cfg: Config, s: State)
    requires Idle(s) && s.draft == "" && cfg.tagBackspaceDeleteBehavior == DeleteConfirm
    ensures Resolve(KeyPress(cfg, s, "Backspace"), Cancel) == s
  {
  }

  /** `delete-confirm`: OK ends exactly where `delete` ends — the previously
      last tag is gone and the others keep their order. */
  lemma BackspaceDeleteConfirmOk(cfg: Config, s: State)
    requires Idle(s) && s.draft == "" && cfg.tagBackspaceDeleteBehavior == DeleteConfirm
    ensures Resolve(KeyPress(cfg, s, "Backspace"), Ok) ==
            KeyPress(cfg.(tagBackspaceDeleteBehavior := Delete), s, "Backspace")
    ensures s.tags != [] ==>
      Resolve(KeyPress(cfg, s, "Backspace"), Ok).tags == s.tags[..|s.tags| - 1]
  {
    WithoutLastIsWithoutLastIndex(s.tags);
  }

  /** `delete-confirm` on an empty list: a prompt is still opened (for index
      -1), and OK then changes nothing. */
  lemma BackspaceDeleteConfirmOnEmptyList(cfg: Config, s: State)
    requires Idle(s) && s.draft == "" && s.tags == []
    requires cfg.tagBackspaceDeleteBehavior == DeleteConfirm
    ensures KeyPress(cfg, s, "Backspace").pending == Some(-1)
    ensures Resolve(KeyPress(cfg, s, "Backspace"), Ok) == s
  {
  }

  // ---------------------------------------------------------------------
  // Remove icon and descriptors

  /** Without `confirmTagDelete` a remove-icon press removes the index at once;
      with it, the press opens a prompt whose OK removes the same index and
      whose Cancel changes nothing. */
  lemma RemoveIconPressRoutes(cfg: Config, s: State, index: int)
    requires Idle(s)
    ensures !cfg.confirmTagDelete ==>
      RemoveIconPress(cfg, s, index) == s.(tags := WithoutIndex(s.tags, index))
    ensures cfg.confirmTagDelete ==>
      RemoveIconPress(cfg, s, index) == s.(pending := Some(index)) &&
      Resolve(RemoveIconPress(cfg, s, index), Ok) ==
        RemoveIconPress(cfg.(confirmTagDelete := false), s, index) &&
      Resolve(RemoveIconPress(cfg, s, index), Cancel) == s
  {
  }

  /** A tag's remove icon, when shown, removes that tag and no other: the
      tags before it stay and the tags after it move down by one. */
  lemma {:induction false} RemoveIconOfDescriptor(cfg: Config, s: State, i: int)
    requires Idle(s) && cfg.showRemoveButton && !cfg.confirmTagDelete
    requires 0 <= i < |s.tags|
    ensures RenderTags(s.tags, cfg.showRemoveButton)[i].removeIcon.RemoveIconFor?
    ensures PressRemoveIcon(cfg, s, RenderTags(s.tags, cfg.showRemoveButton)[i]) ==
            s.(tags := s.tags[..i] + s.tags[i + 1..])
  {
    WithoutIndexSplice(s.tags, i);
  }

  /** Without `showRemoveButton` no descriptor carries a remove action. */
  lemma NoRemoveIconWhenHidden(tags: seq<Tag>)
    ensures forall d :: d in RenderTags(tags, false) ==> d.removeIcon == NoRemoveIcon
  {
  }

  // ---------------------------------------------------------------------
  // Reachable states

  /** Every event keeps all tags non-empty, starting from the mounted state. */
  lemma EventsPreserveReachable(cfg: Config, s: State, text: string, key: string,
                                index: int, choice: Choice)
    requires Reachable(s)
    ensures Reachable(Mount())
    ensures Idle(s) ==> Reachable(TextChange(s, text).next)
    ensures Idle(s) ==> Reachable(Submit(s).next)
    ensures Idle(s) ==> Reachable(KeyPress(cfg, s, key))
    ensures Idle(s) ==> Reachable(RemoveIconPress(cfg, s, index))
    ensures s.pending.Some? ==> Reachable(Resolve(s, choice))
  {
    WithoutIndexKeepsNonEmpty(s.tags, index);
    WithoutIndexKeepsNonEmpty(s.tags, LastIndex(s.tags));
    WithoutLastIsWithoutLastIndex(s.tags);
    if s.pending.Some? {
      WithoutIndexKeepsNonEmpty(s.tags, s.pending.value);
    }
  }

  /** The session "red", submit, "blue", submit, backspace (`delete`), remove
      icon of tag 0 (no confirmation) ends with no tags. */
  lemma ExampleSession(cfg: Config)
    requires cfg.tagBackspaceDeleteBehavior == Delete && !cfg.confirmTagDelete
    ensures
      var s1 := Submit(TextChange(Mount(), "red").next).next;
      var s2 := Submit(TextChange(s1, "blue").next).next;
      var s3 := KeyPress(cfg, s2, "Backspace");
      var s4 := RemoveIconPress(cfg, s3, 0);
      s1.tags == ["red"] && s2.tags == ["red", "blue"] && s3.tags == ["red"] && s4.tags == []
  {
    var s2 := Submit(TextChange(Submit(TextChange(Mount(), "red").next).next, "blue").next).next;
    assert s2.tags == ["red", "blue"];
    assert WithoutLast(s2.tags) == ["red"];
    WithoutIndexSplice(["red"], 0);
  }
}
