/** The pure list operations behind the tag-entry control: the committed tags
    form an ordered sequence of strings (duplicates allowed), and every change
    to it is one of these expressions. */
module TagList {

  datatype Option<+T> = None | Some(value: T)

  /** A committed tag is its text; its position is its index in the list. */
  type Tag = string

  /** Every tag has some text. The control only ever commits a non-empty draft,
      so every list it builds satisfies this. */
  predicate AllNonEmpty(tags: seq<Tag>) {
    forall k :: 0 <= k < |tags| ==> tags[k] != ""
  }

  /** `tags.filter((_, i) => i !== index)`: keep every tag whose position is
      not `index`. Any integer is accepted; one that is not a position keeps
      the whole list. */
  function WithoutIndex(tags: seq<Tag>, index: int): (r: seq<Tag>)
    ensures |r| == if 0 <= index < |tags| then |tags| - 1 else |tags|
    ensures forall t :: t in r ==> t in tags
  {
    if tags == [] then []
    else if index == 0 then WithoutIndex(tags[1..], -1)
    else [tags[0]] + WithoutIndex(tags[1..], index - 1)
  }

  /** `tags.slice(0, -1)`: everything but the last tag; the empty list stays empty. */
  function WithoutLast(tags: seq<Tag>): (r: seq<Tag>)
    ensures |tags| > 0 ==> |r| == |tags| - 1 && forall k :: 0 <= k < |r| ==> r[k] == tags[k]
    ensures |tags| == 0 ==> r == []
  {
    if |tags| == 0 then tags else tags[..|tags| - 1]
  }

  /** `tags.length - 1`: the position of the last tag, -1 for the empty list. */
  function LastIndex(tags: seq<Tag>): (r: int)
    ensures -1 <= r < |tags|
    ensures r == -1 <==> tags == []
  {
    |tags| - 1
  }

  /** `tags[tags.length - 1]`: the last tag, `undefined` (None) for the empty list. */
  function Last(tags: seq<Tag>): (r: Option<Tag>)
    ensures r.None? <==> tags == []
    ensures r.Some? ==> WithoutLast(tags) + [r.value] == tags
  {
    if |tags| == 0 then None else Some(tags[LastIndex(tags)])
  }

  /** An index that is not a position leaves the list as it is (this is what
      makes a request for position -1 harmless). */
  lemma {:induction false} WithoutIndexOutOfRange(tags: seq<Tag>, index: int)
    requires !(0 <= index < |tags|)
    ensures WithoutIndex(tags, index) == tags
  {
    if tags != [] {
      WithoutIndexOutOfRange(tags[1..], index - 1);
      assert [tags[0]] + tags[1..] == tags;
    }
  }

  /** Removing a position is splicing it out: the tags before it, then the
      tags after it, each in their old order. */
  lemma {:induction false} WithoutIndexSplice(tags: seq<Tag>, index: int)
    requires 0 <= index < |tags|
    ensures WithoutIndex(tags, index) == tags[..index] + tags[index + 1..]
  {
    if index == 0 {
      WithoutIndexOutOfRange(tags[1..], -1);
    } else {
      WithoutIndexSplice(tags[1..], index - 1);
      assert tags[..index] == [tags[0]] + tags[1..][..index - 1];
      assert tags[index + 1..] == tags[1..][index..];
    }
  }

  /** The whole behaviour of the filter in one statement. */
  lemma WithoutIndexIs(tags: seq<Tag>, index: int)
    ensures WithoutIndex(tags, index) ==
            if 0 <= index < |tags| then tags[..index] + tags[index + 1..] else tags
  {
    if 0 <= index < |tags| {
      WithoutIndexSplice(tags, index);
    } else {
      WithoutIndexOutOfRange(tags, index);
    }
  }

  /** Positions before the removed one keep their tags, and every later tag
      moves down by exactly one. */
  lemma WithoutIndexShifts(tags: seq<Tag>, index: int)
    requires 0 <= index < |tags|
    ensures forall k :: 0 <= k < index ==> WithoutIndex(tags, index)[k] == tags[k]
    ensures forall k :: index <= k < |tags| - 1 ==> WithoutIndex(tags, index)[k] == tags[k + 1]
  {
    WithoutIndexSplice(tags, index);
  }

  /** Dropping the last tag and filtering out the last index agree: the
      `delete` behaviour and a confirmed `delete-confirm` remove the same tag. */
  lemma WithoutLastIsWithoutLastIndex(tags: seq<Tag>)
    ensures WithoutLast(tags) == WithoutIndex(tags, LastIndex(tags))
  {
    WithoutIndexIs(tags, LastIndex(tags));
  }

  /** Dropping the last tag undoes appending one. */
  lemma WithoutLastUndoesAppend(tags: seq<Tag>, t: Tag)
    ensures WithoutLast(tags + [t]) == tags
    ensures Last(tags + [t]) == Some(t)
  {
    assert (tags + [t])[..|tags|] == tags;
  }

  /** Removing tags never introduces an empty one. */
  lemma WithoutIndexKeepsNonEmpty(tags: seq<Tag>, index: int)
    requires AllNonEmpty(tags)
    ensures AllNonEmpty(WithoutIndex(tags, index))
  {
    var r := WithoutIndex(tags, index);
    forall k | 0 <= k < |r| ensures r[k] != "" {
      assert r[k] in r;
    }
  }
}
