/**
 * The thread composer (pages/CreateThreadPage.tsx): the form fields, the
 * tag list with its editing handlers, and the publish guard in front of
 * the post service. The AI tag suggestions arrive as a parameter.
 */
module CreateThreadPage {
  import opened Collections
  import opened Text
  import PostService

  /** Most tags the Enter key adds up to. */
  const MaxManualTags: nat := 5

  /**
   * `tagInput.trim().toLowerCase()`: the form in which a typed tag is stored.
   * It is empty exactly for blank input, and otherwise has no surrounding
   * whitespace and no capital letter.
   */
  function NormalizeTag(input: string): (tag: string)
    ensures |tag| == |Trim(input)|
    ensures tag == [] <==> IsBlank(input)
    ensures tag != [] ==> !IsWhitespace(tag[0]) && !IsWhitespace(tag[|tag| - 1])
    ensures forall i | 0 <= i < |tag| :: !('A' <= tag[i] <= 'Z')
  {
    var t := Trim(input);
    var tag := ToLower(t);
    if t != [] then
      LowerKeepsNonWhitespace(t[0]);
      LowerKeepsNonWhitespace(t[|t| - 1]);
      tag
    else
      tag
  }

  /** Lower-casing never turns a visible character into whitespace. */
  lemma LowerKeepsNonWhitespace(c: char)
    requires !IsWhitespace(c)
    ensures !IsWhitespace(LowerChar(c))
  {
  }

  /** The condition under which Enter in the tag box takes effect. */
  predicate AddTagApplies(key: string, tagInput: string, tags: seq<string>)
  {
    key == "Enter" && !IsBlank(tagInput) && |tags| < MaxManualTags
  }

  /** The test `!tags.includes(t)` that admits a suggested tag to the tail of the merge. */
  function IsNewTag(tags: seq<string>): string -> bool
  {
    t => t !in tags
  }

  /** The test `t !== tag` that `removeTag` keeps. */
  function IsNotTag(tag: string): string -> bool
  {
    t => t != tag
  }

  /**
   * `Array.from(new Set([...tags, ...suggested]))`: every tag and every
   * suggestion, each once.
   */
  function MergeSuggested(tags: seq<string>, suggested: seq<string>): (r: seq<string>)
    ensures NoDup(r)
    ensures forall t :: t in r <==> t in tags || t in suggested
  {
    SetInsertAll([], tags + suggested)
  }

  /**
   * The merge keeps the existing (duplicate-free) tags in front, in order,
   * followed by each suggested tag not already present, at its first
   * occurrence; nothing caps the length.
   */
  lemma {:induction false} MergeSuggestedSpec(tags: seq<string>, suggested: seq<string>)
    requires NoDup(tags)
    ensures MergeSuggested(tags, suggested) == tags + Filter(KeepFirst(suggested), IsNewTag(tags))
    ensures NoDup(MergeSuggested(tags, suggested))
  {
    ArrayFromSetIsKeepFirst(tags + suggested);
    KeepFirstAfter(tags, suggested, IsNewTag(tags));
  }

  /**
   * `tags.filter(t => t !== tag)`: every occurrence of `tag` gone, every other
   * tag kept as often as before and in the same relative order.
   */
  function WithoutTag(tags: seq<string>, tag: string): (r: seq<string>)
    ensures tag !in r
    ensures forall t | t != tag :: multiset(r)[t] == multiset(tags)[t]
    ensures IsSubsequence(r, tags)
    ensures NoDup(tags) ==> NoDup(r)
  {
    var r := Filter(tags, IsNotTag(tag));
    if NoDup(tags) then FilterNoDup(tags, IsNotTag(tag)); r else r
  }

  /** Removing a tag that is not present changes nothing. */
  lemma WithoutAbsentTag(tags: seq<string>, tag: string)
    requires tag !in tags
    ensures WithoutTag(tags, tag) == tags
  {
    FilterAll(tags, IsNotTag(tag));
  }

  /** The composer's form state. */
  class CreateThreadForm {
    var title: string
    var content: string
    var category: string
    var tags: seq<string>
    var tagInput: string

    /** Every handler keeps the tag list free of duplicates. */
    ghost predicate Valid()
      reads this
    {
      NoDup(tags)
    }

    constructor ()
      ensures Valid()
      ensures title == "" && content == "" && category == "Engineering"
      ensures tags == ["javascript", "react"] && tagInput == ""
    {
      title, content, category := "", "", "Engineering";
      tags, tagInput := ["javascript", "react"], "";
    }

    /**
     * `handleSuggestTags`: skipped while the title or the content is empty
     * (not trimmed); `suggested` is what `suggestTags` answered, and a non-empty
     * answer is merged behind the existing tags.
     */
    method HandleSuggestTags(suggested: seq<string>)
      requires Valid()
      modifies this`tags
      ensures Valid()
      ensures title == "" || content == "" || suggested == [] ==> tags == old(tags)
      ensures title != "" && content != "" && suggested != [] ==>
                tags == old(tags) + Filter(KeepFirst(suggested), IsNewTag(old(tags)))
    {
      if title == "" || content == "" {
        return;
      }
      if |suggested| > 0 {
        MergeSuggestedSpec(tags, suggested);
        tags := MergeSuggested(tags, suggested);
      }
    }

    /**
     * `handleAddTag`: on Enter with a non-blank input and fewer than five
     * tags, append the normalised input unless it is already a tag, and clear
     * the input either way; otherwise change nothing.
     */
    method HandleAddTag(key: string)
      requires Valid()
      modifies this`tags, this`tagInput
      ensures Valid()
      ensures !AddTagApplies(key, old(tagInput), old(tags)) ==>
                tags == old(tags) && tagInput == old(tagInput)
      ensures AddTagApplies(key, old(tagInput), old(tags)) ==>
                tagInput == "" &&
                tags == (if NormalizeTag(old(tagInput)) in old(tags) then old(tags)
                         else old(tags) + [NormalizeTag(old(tagInput))])
      ensures |old(tags)| <= MaxManualTags ==> |tags| <= MaxManualTags
    {
      if key == "Enter" && Trim(tagInput) != "" && |tags| < MaxManualTags {
        var tag := NormalizeTag(tagInput);
        if tag !in tags {
          tags := tags + [tag];
        }
        tagInput := "";
      }
    }

    /** `removeTag`: drop every occurrence of `tag`. */
    method RemoveTag(tag: string)
      requires Valid()
      modifies this`tags
      ensures Valid()
      ensures tags == WithoutTag(old(tags), tag)
    {
      tags := WithoutTag(tags, tag);
    }

    /**
     * `handlePublish`: refuse when the trimmed title or content is empty;
     * otherwise create the post through the store, with the form's title,
     * content, category and tags. `idClock` and `thumbnailClock` are the two
     * `Date.now()` readings of `createPost`.
     */
    method HandlePublish(store: PostService.PostStore, idClock: nat, thumbnailClock: nat)
      returns (published: bool)
      modifies store
      ensures published <==> !IsBlank(title) && !IsBlank(content)
      ensures !published ==> store.storage == old(store.storage)
      ensures published ==>
                store.storage ==
                old(store.storage)[PostService.StorageKey :=
                  [PostService.NewPost(title, content, category, tags, idClock, thumbnailClock)]
                  + old(store.Posts())]
      ensures published ==>
                store.Posts() ==
                [PostService.NewPost(title, content, category, tags, idClock, thumbnailClock)]
                + old(store.Posts())
    {
      if Trim(title) == "" || Trim(content) == "" {
        return false;
      }
      var _ := store.CreatePost(title, content, category, tags, idClock, thumbnailClock);
      published := true;
    }
  }
}
