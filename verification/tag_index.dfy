/**
 * The derived tag index of `getAllTags`: one entry per distinct tag name found
 * in the tag lists of the published articles, in order of first appearance,
 * with the number of tag-list entries carrying that name and a slug id.
 * Drafts never contribute.
 */
module TagCounting {
  import opened BlogTypes
  import opened Seqs
  import opened Text

  /**
   * Every tag-list entry of the published articles, article by article (a
   * tag repeated within one article appears twice).
   */
  function PublishedTagEntries(arts: seq<Article>): seq<string> {
    if |arts| == 0 then []
    else
      var last := arts[|arts| - 1];
      PublishedTagEntries(arts[..|arts| - 1]) + (if last.published then last.tags else [])
  }

  /** The number of tag-list entries over the published articles. */
  function TotalTagEntries(arts: seq<Article>): nat {
    if |arts| == 0 then 0
    else
      var last := arts[|arts| - 1];
      TotalTagEntries(arts[..|arts| - 1]) + (if last.published then |last.tags| else 0)
  }

  /** The distinct entries of `ts`, in order of first appearance. */
  function Distinct(ts: seq<string>): (d: seq<string>)
    ensures NoDup(d)
    ensures forall t :: t in d <==> t in ts
  {
    if |ts| == 0 then []
    else
      var d := Distinct(ts[..|ts| - 1]);
      var x := ts[|ts| - 1];
      assert ts == ts[..|ts| - 1] + [x];
      if x in d then d else d + [x]
  }

  /**
   * The index `getAllTags` returns for the given article list: one entry per
   * distinct published tag name, in order of first appearance, each with the
   * slug of its name as id.
   */
  function TagIndex(arts: seq<Article>): (r: seq<Tag>)
    ensures |r| == |Distinct(PublishedTagEntries(arts))|
    ensures forall i :: 0 <= i < |r| ==>
      r[i].name == Distinct(PublishedTagEntries(arts))[i] && r[i].id == Slug(r[i].name)
  {
    var ts := PublishedTagEntries(arts);
    var d := Distinct(ts);
    seq(|d|, i requires 0 <= i < |d| => Tag(Slug(d[i]), d[i], multiset(ts)[d[i]]))
  }

  /** The names of a tag list, in order. */
  function TagNames(tags: seq<Tag>): (r: seq<string>)
    ensures |r| == |tags| && forall i :: 0 <= i < |tags| ==> r[i] == tags[i].name
  {
    seq(|tags|, i requires 0 <= i < |tags| => tags[i].name)
  }

  /** `tags.reduce((sum, tag) => sum + tag.count, 0)` */
  function SumCounts(tags: seq<Tag>): nat {
    if |tags| == 0 then 0 else tags[0].count + SumCounts(tags[1..])
  }

  /** A tag name occurs in the tag list of some published article. */
  predicate UsedByPublished(arts: seq<Article>, t: string) {
    exists k :: 0 <= k < |arts| && arts[k].published && t in arts[k].tags
  }

  /** The published tag entries are exactly the tags of the published articles. */
  lemma {:induction false} PublishedTagEntriesMembers(arts: seq<Article>, t: string)
    ensures t in PublishedTagEntries(arts) <==> UsedByPublished(arts, t)
    ensures |PublishedTagEntries(arts)| == TotalTagEntries(arts)
    decreases |arts|
  {
    if |arts| > 0 {
      var init := arts[..|arts| - 1];
      PublishedTagEntriesMembers(init, t);
      if UsedByPublished(init, t) {
        var k :| 0 <= k < |init| && init[k].published && t in init[k].tags;
        assert arts[k] == init[k];
      }
      if UsedByPublished(arts, t) {
        var k :| 0 <= k < |arts| && arts[k].published && t in arts[k].tags;
        if k < |init| {
          assert arts[k] == init[k];
        }
      }
    }
  }

  /**
   * The shape of the index: names are distinct, each entry counts the
   * published tag-list entries with its name (so at least one), its id is the
   * slug of its name, and a name is listed iff some published article uses it.
   */
  lemma TagIndexSpec(arts: seq<Article>)
    ensures var r := TagIndex(arts);
      && NoDup(TagNames(r))
      && (forall i :: 0 <= i < |r| ==>
            && r[i].id == Slug(r[i].name)
            && r[i].count == multiset(PublishedTagEntries(arts))[r[i].name]
            && r[i].count >= 1)
      && (forall t :: t in TagNames(r) <==> UsedByPublished(arts, t))
  {
    var ts := PublishedTagEntries(arts);
    var d := Distinct(ts);
    var r := TagIndex(arts);
    assert TagNames(r) == d;
    forall i | 0 <= i < |d| ensures multiset(ts)[d[i]] >= 1 {
      assert d[i] in ts;
    }
    forall t ensures t in TagNames(r) <==> UsedByPublished(arts, t) {
      PublishedTagEntriesMembers(arts, t);
    }
  }

  /** `SumOver(d, m)` adds up the multiplicities in `m` of the elements of `d`. */
  function SumOver(d: seq<string>, m: multiset<string>): nat {
    if |d| == 0 then 0 else m[d[0]] + SumOver(d[1..], m)
  }

  lemma {:induction false} SumOverEmpty(d: seq<string>)
    ensures SumOver(d, multiset{}) == 0
    decreases |d|
  {
    if |d| > 0 {
      SumOverEmpty(d[1..]);
    }
  }

  /** One more occurrence of `x` adds one to the sum iff `x` is listed (once) in `d`. */
  lemma {:induction false} SumOverAdd(d: seq<string>, m: multiset<string>, x: string)
    requires NoDup(d)
    ensures SumOver(d, m + multiset{x}) == SumOver(d, m) + (if x in d then 1 else 0)
    decreases |d|
  {
    if |d| > 0 {
      assert NoDup(d[1..]);
      SumOverAdd(d[1..], m, x);
      assert d == [d[0]] + d[1..];
      assert d[0] == x ==> x !in d[1..];
    }
  }

  /** Over a duplicate-free list covering `ts`, the multiplicities add up to `|ts|`. */
  lemma {:induction false} SumOverAll(d: seq<string>, ts: seq<string>)
    requires NoDup(d)
    requires forall t :: t in ts ==> t in d
    ensures SumOver(d, multiset(ts)) == |ts|
    decreases |ts|
  {
    if |ts| == 0 {
      SumOverEmpty(d);
    } else {
      var init := ts[..|ts| - 1];
      var x := ts[|ts| - 1];
      assert ts == init + [x];
      SumOverAll(d, init);
      SumOverAdd(d, multiset(init), x);
    }
  }

  lemma {:induction false} SumCountsIsSumOver(r: seq<Tag>, d: seq<string>, m: multiset<string>)
    requires |r| == |d|
    requires forall i :: 0 <= i < |r| ==> r[i].count == m[d[i]]
    ensures SumCounts(r) == SumOver(d, m)
    decreases |r|
  {
    if |r| > 0 {
      SumCountsIsSumOver(r[1..], d[1..], m);
    }
  }

  /**
   * The counts of the index add up to the number of tag-list entries of the
   * published articles.
   */
  lemma TagIndexSum(arts: seq<Article>)
    ensures SumCounts(TagIndex(arts)) == TotalTagEntries(arts)
  {
    var ts := PublishedTagEntries(arts);
    var d := Distinct(ts);
    SumCountsIsSumOver(TagIndex(arts), d, multiset(ts));
    SumOverAll(d, ts);
    PublishedTagEntriesMembers(arts, "");
  }

  /** Drafts contribute nothing: the index of the published articles alone is the same. */
  lemma {:induction false} TagIndexIgnoresDrafts(arts: seq<Article>)
    ensures TagIndex(Filter(arts, IsPublished)) == TagIndex(arts)
  {
    PublishedEntriesIgnoreDrafts(arts);
  }

  lemma {:induction false} PublishedEntriesIgnoreDrafts(arts: seq<Article>)
    ensures PublishedTagEntries(Filter(arts, IsPublished)) == PublishedTagEntries(arts)
    decreases |arts|
  {
    if |arts| > 0 {
      var init := arts[..|arts| - 1];
      var last := arts[|arts| - 1];
      assert arts == init + [last];
      PublishedEntriesIgnoreDrafts(init);
      FilterSnoc(init, last, IsPublished);
      var f := Filter(init, IsPublished);
      if last.published {
        assert (f + [last])[..|f|] == f;
        assert (f + [last])[|f|] == last;
        assert PublishedTagEntries(f + [last]) == PublishedTagEntries(f) + last.tags;
      } else {
        assert Filter(arts, IsPublished) == f;
        assert PublishedTagEntries(arts) == PublishedTagEntries(init) + [];
      }
    }
  }
}
