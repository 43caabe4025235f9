/**
 * What the two article editors share: the form's fields and the rule by
 * which the tag input joins the tag list (trimmed, non-empty, not yet
 * listed).
 */
module ArticleForms {
  import opened BlogTypes
  import opened Seqs
  import opened Text
  import opened TagRewrite

  /** An editor's fields; the image URL is a plain string, '' meaning "none". */
  datatype ArticleForm = ArticleForm(
    title: string,
    content: string,
    excerpt: string,
    categoryId: string,
    tags: seq<string>,
    author: string,
    imageUrl: string,
    published: bool)

  /**
   * `!s.trim()`: the field holds nothing but white space. Stated through
   * `IsBlank`; `MissingTrim` shows it is the emptiness of the trimmed text.
   */
  predicate Missing(s: string) {
    IsBlank(s)
  }

  lemma MissingTrim(s: string)
    ensures Missing(s) <==> Trim(s) == ""
  {
  }

  /** Trimming again changes nothing, and a trimmed field is missing exactly when the field was. */
  lemma TrimmedField(s: string)
    ensures Trim(Trim(s)) == Trim(s)
    ensures Missing(Trim(s)) <==> Missing(s)
  {
    TrimIdempotent(s);
  }

  /** Whether the tag input would be added to the list. */
  predicate Joins(tags: seq<string>, input: string) {
    Trim(input) != "" && Trim(input) !in tags
  }

  /**
   * `[...tags, tag]` for `tag = input.trim()` when the tag is non-empty and
   * not listed yet; otherwise the list as it was.
   */
  function WithTag(tags: seq<string>, input: string): (r: seq<string>)
    ensures Joins(tags, input) ==> r == tags + [Trim(input)]
    ensures !Joins(tags, input) ==> r == tags
    ensures NoDup(tags) ==> NoDup(r)
    ensures forall t :: t in r ==> t in tags || t == Trim(input)
  {
    if Joins(tags, input) then tags + [Trim(input)] else tags
  }

  /** Removing a tag that was just added restores the list it was added to. */
  lemma WithTagThenRemove(tags: seq<string>, input: string)
    requires Joins(tags, input)
    ensures RemoveTag(WithTag(tags, input), Trim(input)) == tags
  {
    var t := Trim(input);
    FilterSnoc(tags, t, IsNot(t));
    RemoveTagFacts(tags, t);
  }

  /** Adding the same input twice has the effect of adding it once. */
  lemma WithTagIdempotent(tags: seq<string>, input: string)
    ensures WithTag(WithTag(tags, input), input) == WithTag(tags, input)
  {
  }
}
