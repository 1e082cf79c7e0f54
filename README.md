# Tag-entry input: a Dafny model

This project models the interaction state machine of the `Input` component
of react-native-autocomplete-select. The user types a draft, submits it as
a tag, and removes tags in one of two ways: with the remove icon on a tag,
or with backspace on an empty draft. Backspace follows one of three
policies: `delete`, `delete-modify` or `delete-confirm`. A removal can be
held back behind a confirmation prompt.

Three modules:

- `TagList` (`tag_list.dfy`) holds the pure list expressions of the
  component:
  - the index filter of `removeTag`;
  - the `slice(0, -1)` of `removeLastTag`;
  - `getLastTagIndex` and `getLastTag`;
  - the invariant that every committed tag has text.
- `TagEntry` (`tag_entry.dfy`) gives the whole control as a state record
  (draft, tag list, open prompt) with one pure transition per event. The
  prompt is a pending state that holds the index captured when it opened.
  A later `Resolve(Ok)` or `Resolve(Cancel)` closes it. `RenderTags` builds
  the per-tag descriptors of `renderTag`. The lemmas state the
  component's behaviour over these transitions.
- `InputComponent` (`input.dfy`) is the component as an object. The class
  `Input` has the cells `inputValue`, `tagsList` and `pendingTagIndex`, and
  one method per handler. Each method writes the cells in the order the
  handler calls its setters. Each is proved to end in the state that the
  matching `TagEntry` transition or `TagList` function gives, and to keep
  every tag non-empty.
  `isCurrentInputEmpty`, `getLastTagIndex`, `getLastTag` and the memoised
  `renderTag` are the class functions `IsCurrentInputEmpty`,
  `GetLastTagIndex`, `GetLastTag` and `RenderTags`.

Decisions where the component leaves room:

- `tagBackspaceDeleteBehavior` may be unset or hold an unexpected value.
  Both are the constructor `Unrecognized`, and a backspace then does
  nothing, because the switch has no default.
- `if (lastTag)` is false both for `undefined` (an empty list) and for
  `""`. `RemoveLastTagAndLoad` loads the draft only when the last tag exists
  and has text. An empty tag is never committed, so in reachable states the
  draft always receives the removed tag.
- The prompt is modal. While it is open, the only event the control gets is
  its resolution. So every transition that models a user event requires
  that no prompt is open: `TextChange`, `Submit`, `KeyPress`,
  `RemoveIconPress` and `RequestConfirm`, and every handler of the class.
  `Resolve` requires that a prompt is open. OK filters the captured index
  out of the current list. Under the modal assumption this is the list the
  prompt was opened on.
- The code has no staleness guard. The OK closure
  (`src/components/Input.tsx:97`) calls the `removeTag` of the render that
  opened the prompt. That `removeTag` (lines 25-28) writes back the list as
  it was at request time, with the captured index filtered out. A change to
  the list made while the prompt was open would be lost. The model excludes
  that case, because it accepts no other event while a prompt is open.
- Submit clears the draft and `delete-modify` loads a tag into it, but
  neither passes the new draft to `onChangeText`. Only a text change from
  the field notifies it. `Submit` states this with `onChangeText == None`.
  The backspace path returns a bare state, so it has no notification to
  report.
- `delete-confirm` on an empty list opens a prompt for index -1. OK on it
  changes nothing (`BackspaceDeleteConfirmOnEmptyList`). This behaviour is
  modelled as written, not suppressed.

## Model

| member | source | states |
|---|---|---|
| TagList.WithoutIndex | src/components/Input.tsx:25-28 | The filtered list is one shorter when the index is a position and the same length otherwise; it holds only tags of the input |
| TagList.WithoutIndexSplice | src/components/Input.tsx:26 | For `0 <= i < |tags|`, removing `i` gives `tags[..i] + tags[i+1..]` |
| TagList.WithoutIndexOutOfRange | src/components/Input.tsx:26 | An index that is not a position (such as -1) leaves the list unchanged |
| TagList.WithoutIndexIs | src/components/Input.tsx:25-28 | Both cases of the filter together: splice when in range, identity otherwise |
| TagList.WithoutIndexShifts | src/components/Input.tsx:25-28 | Earlier tags keep their positions; every later tag moves down by exactly one |
| TagList.WithoutIndexKeepsNonEmpty | src/components/Input.tsx:26 | Filtering keeps every tag non-empty |
| TagList.WithoutLast | src/components/Input.tsx:80-85 | A non-empty list loses its last element and keeps the rest in order; an empty list stays empty |
| TagList.LastIndex | src/components/Input.tsx:112 | The last index lies in `-1 .. |tags|-1` and is -1 exactly for the empty list |
| TagList.Last | src/components/Input.tsx:114 | The last tag is absent exactly for the empty list; when present, the list is the dropped-last list followed by it |
| TagList.WithoutLastIsWithoutLastIndex | src/components/Input.tsx:66-85 | Dropping the last tag equals filtering out the last index, so `delete` and a confirmed `delete-confirm` remove the same tag |
| TagList.WithoutLastUndoesAppend | src/components/Input.tsx:80-85 | Dropping the last tag undoes appending one, and the last tag of `tags + [t]` is `t` |
| TagEntry.Mount | src/components/Input.tsx:16-17 | The mounted state: empty draft, no tags, no prompt; specified by `EventsPreserveReachable` and `ExampleSession` |
| TagEntry.TextChange | src/components/Input.tsx:19-23 | The text-change transition; specified by `TextChangeSetsDraft` and `TextChangeLastWins` |
| TagEntry.Submit | src/components/Input.tsx:43-50 | The submit transition; specified by `SubmitCommitsOrBlurs` and `TypeAndSubmitEachAppends` |
| TagEntry.RequestConfirm | src/components/Input.tsx:96-110 | Opening the prompt with the index captured; specified by `BackspaceDeleteConfirmAsks` and `RemoveIconPressRoutes` |
| TagEntry.Resolve | src/components/Input.tsx:97-109 | The prompt's OK or Cancel; specified by `BackspaceDeleteConfirmCancel`, `BackspaceDeleteConfirmOk` and `RemoveIconPressRoutes` |
| TagEntry.RemoveLastTagAndLoad | src/components/Input.tsx:87-94 | The `delete-modify` removal; specified by `BackspaceDeleteModify` and `DeleteModifyThenSubmitRestores` |
| TagEntry.RemoveByBehavior | src/components/Input.tsx:66-78 | The switch on the backspace behaviour; specified by `BackspaceDelete`, `BackspaceDeleteModify`, `BackspaceDeleteConfirmAsks` and `BackspaceUnrecognizedIgnored` |
| TagEntry.BackspacePress | src/components/Input.tsx:52-58 | Backspace reaches the tags only on an empty draft; specified by `KeyPressIgnored` |
| TagEntry.KeyPress | src/components/Input.tsx:38-41 | Only "Backspace" is handled; specified by `KeyPressIgnored` |
| TagEntry.RemoveIconPress | src/components/Input.tsx:30-36 | The remove-icon routing; specified by `RemoveIconPressRoutes` |
| TagEntry.RenderTag | src/components/Input.tsx:116-130 | One tag's descriptor; specified by `RenderTags` and `RemoveIconOfDescriptor` |
| TagEntry.IsBackspace | src/components/Input.tsx:60-64 | `isPressedKeyBackspace`: true exactly for the key "Backspace"; specified by `KeyPressIgnored` |
| TagEntry.PressRemoveIcon | src/components/Input.tsx:121 | The descriptor's `onPress` closure: a remove-icon press for the bound index; specified by `RemoveIconOfDescriptor` |
| TagEntry.RenderTags | src/components/Input.tsx:116-133 | One descriptor per tag, in list order; descriptor `i` has key `i` and the tag's text; it has a remove action if and only if `showRemoveButton`, and that action is bound to `i` |
| TagEntry.TextChangeSetsDraft | src/components/Input.tsx:19-23 | A text change sets the draft to exactly the text, leaves tags and prompt unchanged, passes the same text to `onChangeText` and asks for no blur |
| TagEntry.TextChangeLastWins | src/components/Input.tsx:19-23 | Two text changes in a row leave the state the second alone would |
| TagEntry.SubmitCommitsOrBlurs | src/components/Input.tsx:43-50 | A non-empty draft is appended at the end and the draft becomes ""; an empty draft changes nothing and requests a blur |
| TagEntry.TypeAndSubmitEachAppends | src/components/Input.tsx:43-50 | Typing and submitting N non-empty drafts appends exactly those N tags in submission order, and the draft ends empty |
| TagEntry.KeyPressIgnored | src/components/Input.tsx:38-64 | A key other than "Backspace", or a backspace on a non-empty draft, changes nothing |
| TagEntry.BackspaceUnrecognizedIgnored | src/components/Input.tsx:66-78 | With no recognised behaviour, backspace on an empty draft changes nothing |
| TagEntry.BackspaceDelete | src/components/Input.tsx:66-85 | Under `delete`, backspace on an empty draft turns a non-empty list into `tags[..|tags|-1]`, leaves an empty list alone, and changes nothing else |
| TagEntry.BackspaceDeleteUndoesSubmit | src/components/Input.tsx:43-85 | Under `delete`, submit then backspace restores the tag list and leaves the draft empty |
| TagEntry.BackspaceDeleteModify | src/components/Input.tsx:87-94 | Under `delete-modify`, a non-empty list loses its last tag and the draft becomes that tag's text; an empty list changes nothing |
| TagEntry.DeleteModifyThenSubmitRestores | src/components/Input.tsx:43-94 | Under `delete-modify`, backspace then submit gives back the exact state before the backspace |
| TagEntry.BackspaceDeleteConfirmAsks | src/components/Input.tsx:74-110 | Under `delete-confirm`, backspace on an empty draft only opens a prompt capturing index `|tags|-1` |
| TagEntry.BackspaceDeleteConfirmCancel | src/components/Input.tsx:96-110 | Cancelling the prompt leaves the state as it was before the backspace |
| TagEntry.BackspaceDeleteConfirmOk | src/components/Input.tsx:96-110 | OK ends in the state `delete` would give: the previously last tag removed, the rest in order |
| TagEntry.BackspaceDeleteConfirmOnEmptyList | src/components/Input.tsx:96-114 | On an empty list a prompt is still opened, for index -1, and OK then changes nothing |
| TagEntry.RemoveIconPressRoutes | src/components/Input.tsx:30-36 | Without `confirmTagDelete` the index is removed at once; with it a prompt opens for the index, its OK gives the immediate removal and its Cancel gives the state before |
| TagEntry.RemoveIconOfDescriptor | src/components/Input.tsx:116-123 | When shown and unconfirmed, the remove action of descriptor `i` splices out tag `i` and nothing else |
| TagEntry.NoRemoveIconWhenHidden | src/components/Input.tsx:118-123 | Without `showRemoveButton` no descriptor has a remove action |
| TagEntry.EventsPreserveReachable | src/components/Input.tsx:14-114 | The mounted state has no empty tag, and every event keeps all tags non-empty |
| TagEntry.ExampleSession | src/components/Input.tsx:19-85 | "red", submit, "blue", submit, backspace under `delete`, then remove icon 0 without confirmation gives `["red"]`, `["red","blue"]`, `["red"]`, `[]` |
| InputComponent.Input.constructor | src/components/Input.tsx:14-17 | The control mounts with an empty draft, no tags and no prompt |
| InputComponent.Input.HandleTextChange | src/components/Input.tsx:19-23 | Draft set to the text, tags kept, same text returned as the `onChangeText` notification |
| InputComponent.Input.RemoveTag | src/components/Input.tsx:25-28 | The tag list becomes the index-filtered list; draft and prompt unchanged |
| InputComponent.Input.HandleTagRemoveIconPress | src/components/Input.tsx:30-36 | Ends in the `RemoveIconPress` state: prompt when `confirmTagDelete`, immediate removal otherwise |
| InputComponent.Input.HandleKeyPress | src/components/Input.tsx:38-41 | Ends in the `KeyPress` state; only "Backspace" reaches the backspace handler |
| InputComponent.Input.HandleSubmitEditing | src/components/Input.tsx:43-50 | Non-empty draft appended and cleared with no blur; otherwise nothing changes and blur is requested |
| InputComponent.Input.HandleBackspacePress | src/components/Input.tsx:52-58 | Ends in the `BackspacePress` state; the tags are touched only when the draft is empty |
| InputComponent.Input.HandleRemoveTag | src/components/Input.tsx:66-78 | Ends in the state the configured behaviour gives; an unrecognised behaviour changes nothing |
| InputComponent.Input.RemoveLastTag | src/components/Input.tsx:80-85 | A non-empty list loses its last tag; an empty one is kept; draft and prompt unchanged |
| InputComponent.Input.RemoveLastTagAndSetInputValue | src/components/Input.tsx:87-94 | The list loses its last tag and then the draft becomes that tag; with no tags nothing changes |
| InputComponent.Input.RemoveTagAfterConfirm | src/components/Input.tsx:96-110 | Opens the prompt with the given index captured; draft and tags unchanged |
| InputComponent.Input.ResolveConfirmation | src/components/Input.tsx:97-109 | OK removes the captured index and Cancel changes nothing; either way the prompt closes |
| InputComponent.Input.IsCurrentInputEmpty | src/components/Input.tsx:58 | `isCurrentInputEmpty`: the draft has length 0; specified through `HandleBackspacePress` and `KeyPressIgnored` |
| InputComponent.Input.GetLastTagIndex | src/components/Input.tsx:112 | `getLastTagIndex` on the current list; specified by `TagList.LastIndex` |
| InputComponent.Input.GetLastTag | src/components/Input.tsx:114 | `getLastTag` on the current list; specified by `TagList.Last` |
| InputComponent.Input.RenderTags | src/components/Input.tsx:116-133 | The descriptors of the current list under the `showRemoveButton` prop; specified by `TagEntry.RenderTags` and `RemoveIconOfDescriptor` |

## Left out

- Rendering is not modelled: JSX, `StyleSheet` styles, and the `Tag` and `TagListMemoized` components. `src/components/Tag.tsx` and `src/components/TagList.tsx` are not part of this model. `RenderTags` assumes that the tag list calls `renderTag` once per tag, in list order, with the tag's index.
- The props are taken as fixed while the control is mounted (`props` is a `const` of the class and `Config` is a parameter of every transition). A change of props during a session is not modelled.
- `useCallback` and `React.memo` are not modelled. Under fixed props they have no behaviour, so the descriptors are a pure function of the tags and `showRemoveButton`. Without that assumption they do: the dependency list of `renderTag` (`src/components/Input.tsx:131-132`) leaves out `props.confirmTagDelete`. So a remove action memoised before `confirmTagDelete` changed still follows the old setting until the tags or `showRemoveButton` change. The model does not capture that stale case.
- The `TextInput` ref and its `blur()` call are a returned blur flag. The `blurOnSubmit` to `submitBehavior` mapping (line 141) is widget configuration and is left out.
- The native key event is reduced to its `nativeEvent.key` string.
- `onChangeText` is optional in the source. The model returns the notified text whether or not a callback is registered.
- `Alert.alert` is not modelled: not its presentation, its title and message, or its buttons' styles. Only the prompt's captured index and its two outcomes are modelled.
- React's batching of state updates and the timing of closures are not modelled. The OK handler uses the list from the render that opened the prompt. The model resolves against the current list and assumes that no other event arrives while the prompt is open. Every event transition of `TagEntry` and every handler of the class therefore requires a closed prompt.
- Unmounting while a prompt is open is not modelled. The component has no teardown logic of its own.
- `src/types/settings.ts` (`ISettings`) is not part of this model. The props used are `confirmTagDelete`, `tagBackspaceDeleteBehavior` and `showRemoveButton`.
- String length counts characters of `seq<char>`, not UTF-16 code units. Only the checks for an empty string depend on it, and they mean the same under both counts.
