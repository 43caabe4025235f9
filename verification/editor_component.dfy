/**
 * The stand-alone article editor component: its initial state, the tag
 * input driven by the Enter and ',' keys, the save that validates and
 * normalises the fields before handing them to `onSave`, and its own
 * automatic excerpt (trimmed before the ellipsis).
 *
 * As in the admin editor, the text extracted from the HTML content is an
 * input of the excerpt.
 */
module ArticleEditorComponent {
  import opened BlogTypes
  import opened Text
  import opened TagRewrite
  import opened ArticleForms

  const ExcerptLength: nat := 150

  /** The author used when none is given. */
  const AnonymousAuthor := "Anonymous"

  /**
   * `article?.categoryId || categories[0]?.id || ''`: the article's category,
   * else the first category's id, else nothing.
   */
  function InitialCategory(article: Option<Article>, cats: seq<Category>): (r: string)
    ensures article.Some? && article.value.categoryId != "" ==> r == article.value.categoryId
    ensures (article.None? || article.value.categoryId == "") && |cats| > 0 ==> r == cats[0].id
    ensures r == "" <==> (article.None? || article.value.categoryId == "") && (|cats| == 0 || cats[0].id == "")
  {
    if article.Some? && article.value.categoryId != "" then article.value.categoryId
    else if |cats| > 0 then cats[0].id
    else ""
  }

  /** The fields the component starts with: the article's, or empty ones. */
  function InitialForm(article: Option<Article>, cats: seq<Category>): (f: ArticleForm)
    ensures f.categoryId == InitialCategory(article, cats)
    ensures article.None? ==> f == ArticleForm("", "", "", f.categoryId, [], "", "", false)
    ensures article.Some? ==>
      var a := article.value;
      f.title == a.title && f.content == a.content && f.excerpt == a.excerpt &&
      f.tags == a.tags && f.author == a.author && f.published == a.published &&
      f.imageUrl == Pick(a.imageUrl, "")
  {
    match article
    case Some(a) =>
      ArticleForm(a.title, a.content, a.excerpt, InitialCategory(article, cats), a.tags, a.author,
                  Pick(a.imageUrl, ""), a.published)
    case None => ArticleForm("", "", "", InitialCategory(article, cats), [], "", "", false)
  }

  /**
   * What `handleSave` hands to `onSave`: nothing when the title or the
   * content is blank or no category is chosen; otherwise the fields trimmed,
   * with a blank author replaced by "Anonymous".
   */
  function Saved(f: ArticleForm): (r: Option<ArticleInput>)
    ensures r.None? <==> IsBlank(f.title) || IsBlank(f.content) || f.categoryId == ""
    ensures r.Some? ==>
      r.value.title == Trim(f.title) && r.value.content == Trim(f.content) &&
      r.value.excerpt == Trim(f.excerpt) && r.value.imageUrl == Some(Trim(f.imageUrl)) &&
      r.value.categoryId == f.categoryId && r.value.tags == f.tags && r.value.published == f.published
    ensures r.Some? ==> r.value.author == if IsBlank(f.author) then AnonymousAuthor else Trim(f.author)
  {
    if Missing(f.title) || Missing(f.content) || f.categoryId == "" then None
    else
      var author := if Missing(f.author) then AnonymousAuthor else Trim(f.author);
      Some(ArticleInput(Trim(f.title), Trim(f.content), Trim(f.excerpt), f.categoryId, f.tags, author,
                        Some(Trim(f.imageUrl)), f.published))
  }

  /** The form an emitted input would fill back in. */
  function FormOf(d: ArticleInput): ArticleForm {
    ArticleForm(d.title, d.content, d.excerpt, d.categoryId, d.tags, d.author, Pick(d.imageUrl, ""), d.published)
  }

  /**
   * The normalisation is idempotent: saving what a save emitted emits the
   * same thing again, and the author it emits is never empty.
   */
  lemma SavedIdempotent(f: ArticleForm)
    requires Saved(f).Some?
    ensures Saved(FormOf(Saved(f).value)) == Saved(f)
    ensures Saved(f).value.author != ""
  {
    var d := Saved(f).value;
    var g := FormOf(d);
    TrimmedField(f.title);
    TrimmedField(f.content);
    TrimmedField(f.excerpt);
    TrimmedField(f.imageUrl);
    if Missing(f.author) {
      AnonymousTrimmed();
    } else {
      TrimmedField(f.author);
    }
    SavedComplete(g);
  }

  /** A form with a title, content, a category and an author is saved field by field. */
  lemma SavedComplete(g: ArticleForm)
    requires !Missing(g.title) && !Missing(g.content) && g.categoryId != "" && !Missing(g.author)
    ensures Saved(g) == Some(ArticleInput(Trim(g.title), Trim(g.content), Trim(g.excerpt), g.categoryId,
                                          g.tags, Trim(g.author), Some(Trim(g.imageUrl)), g.published))
  {
  }

  /** The default author is not blank and is its own trim. */
  lemma AnonymousTrimmed()
    ensures Trim(AnonymousAuthor) == AnonymousAuthor && !Missing(AnonymousAuthor)
  {
    TrimFixed(AnonymousAuthor);
  }

  /**
   * `text.substring(0, 150).trim()` followed by '...' when the text is
   * longer than 150 characters: a short text is only trimmed; a long one
   * keeps its first 150 characters, trimmed, and gains the ellipsis.
   */
  function Excerpt(text: string): (r: string)
    ensures |r| <= ExcerptLength + 3
    ensures |text| <= ExcerptLength ==> r == Trim(text)
    ensures |text| > ExcerptLength ==>
      |r| >= 3 && r[|r| - 3..] == "..." && r[..|r| - 3] == Trim(text[..ExcerptLength])
  {
    var kept := Trim(Prefix(text, ExcerptLength));
    if |text| > ExcerptLength then
      assert (kept + "...")[..|kept|] == kept;
      kept + "..."
    else kept
  }

  /**
   * The part of a long excerpt before the ellipsis is a slice of the first
   * 150 characters, cut only at white space.
   */
  lemma ExcerptSlice(text: string)
    requires |text| > ExcerptLength
    ensures var r := Excerpt(text);
      exists i, j :: 0 <= i <= j <= ExcerptLength && r[..|r| - 3] == text[i..j] &&
        IsBlank(text[..i]) && IsBlank(text[j..ExcerptLength])
  {
    var r := Excerpt(text);
    var p := text[..ExcerptLength];
    var kept := Trim(p);
    assert r[..|r| - 3] == kept;
    var i, j :| 0 <= i <= j <= |p| && kept == p[i..j] && IsBlank(p[..i]) && IsBlank(p[j..]);
    SliceOfPrefix(text, ExcerptLength, i, j);
  }

  /**
   * The component's excerpt and the admin editor's (plain truncation) agree
   * whenever the kept part of the text neither starts nor ends with white
   * space.
   */
  lemma ExcerptAgreesWithTruncate(text: string)
    requires var p := Prefix(text, ExcerptLength); p == [] || (!IsSpace(p[0]) && !IsSpace(p[|p| - 1]))
    ensures Excerpt(text) == Truncate(text, ExcerptLength)
  {
    TrimFixed(Prefix(text, ExcerptLength));
  }

  class ArticleEditor {
    var form: ArticleForm
    var tagInput: string

    constructor (article: Option<Article>, cats: seq<Category>)
      ensures form == InitialForm(article, cats) && tagInput == ""
    {
      form := InitialForm(article, cats);
      tagInput := "";
    }

    /**
     * `handleAddTag`: on Enter or ',' the input joins the tag list if it may,
     * and the input is cleared either way; any other key changes nothing.
     */
    method HandleAddTag(key: string)
      modifies this
      ensures key == "Enter" || key == "," ==>
        form == old(form).(tags := WithTag(old(form).tags, old(tagInput))) && tagInput == ""
      ensures key != "Enter" && key != "," ==> form == old(form) && tagInput == old(tagInput)
    {
      if key == "Enter" || key == "," {
        var tag := Trim(tagInput);
        if tag != "" && tag !in form.tags {
          form := form.(tags := form.tags + [tag]);
        }
        tagInput := "";
      }
    }

    /** `removeTag`: every occurrence of the tag leaves the list, the rest keeps its order. */
    method RemoveTag(tag: string)
      modifies this
      ensures form == old(form).(tags := TagRewrite.RemoveTag(old(form).tags, tag))
      ensures tagInput == old(tagInput)
    {
      form := form.(tags := TagRewrite.RemoveTag(form.tags, tag));
    }

    /** `generateExcerpt`, given the text extracted from the content; an empty content changes nothing. */
    method GenerateExcerpt(text: string)
      modifies this
      ensures old(form).content != "" ==> form == old(form).(excerpt := Excerpt(text))
      ensures old(form).content == "" ==> form == old(form)
      ensures tagInput == old(tagInput)
    {
      if form.content != "" {
        form := form.(excerpt := Excerpt(text));
      }
    }
  }
}
