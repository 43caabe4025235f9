/**
 * The bulk tag rewrites of the tag-management page: rename, delete and merge
 * of one tag across every article's tag list, and the batch delete of a
 * selection of tags.
 *
 * Every handler walks the render-time `articles` snapshot, computes a new tag
 * list for each affected article from that snapshot, and hands it to
 * `updateArticle`, which applies it to the latest store state. `Plan` is the
 * list of those writes and `ApplyWrites` their cumulative effect on the store.
 */
module TagRewrite {
  import opened BlogTypes
  import opened Seqs
  import opened BlogStore

  /** `tags.map(tag => tag === from ? to : tag)` */
  function RenameTags(tags: seq<string>, from: string, to: string): (r: seq<string>)
    ensures |r| == |tags|
  {
    seq(|tags|, i requires 0 <= i < |tags| => if tags[i] == from then to else tags[i])
  }

  lemma RenameTagsCons(tags: seq<string>, from: string, to: string)
    requires |tags| > 0
    ensures RenameTags(tags, from, to) ==
            [if tags[0] == from then to else tags[0]] + RenameTags(tags[1..], from, to)
  {
  }

  /**
   * Renaming puts the new name exactly where the old one stood and leaves
   * every other position alone; afterwards the old name is gone and the new
   * name occurs as often as both names did before.
   */
  lemma {:induction false} RenameTagsSpec(tags: seq<string>, from: string, to: string)
    requires from != to
    ensures var r := RenameTags(tags, from, to);
      && (forall i :: 0 <= i < |tags| && tags[i] == from ==> r[i] == to)
      && (forall i :: 0 <= i < |tags| && tags[i] != from ==> r[i] == tags[i])
      && from !in r
      && multiset(r)[to] == multiset(tags)[to] + multiset(tags)[from]
      && (forall x :: x != from && x != to ==> multiset(r)[x] == multiset(tags)[x])
    decreases |tags|
  {
    if |tags| > 0 {
      RenameTagsSpec(tags[1..], from, to);
      RenameTagsCons(tags, from, to);
      assert tags == [tags[0]] + tags[1..];
    }
  }

  /** The test of `tag !== t`. */
  function IsNot(t: string): string -> bool {
    x => x != t
  }

  /** `tags.filter(tag => tag !== t)`: every occurrence of `t` goes, the rest keeps its order. */
  function RemoveTag(tags: seq<string>, t: string): (r: seq<string>)
    ensures IsSubseq(r, tags)
    ensures t !in r
    ensures forall x :: x != t ==> multiset(r)[x] == multiset(tags)[x]
  {
    FilterSpec(tags, IsNot(t));
    Filter(tags, IsNot(t))
  }

  /** Removing a tag keeps a duplicate-free list duplicate-free, and removing an absent tag changes nothing. */
  lemma RemoveTagFacts(tags: seq<string>, t: string)
    ensures NoDup(tags) ==> NoDup(RemoveTag(tags, t))
    ensures t !in tags ==> RemoveTag(tags, t) == tags
  {
    if NoDup(tags) {
      FilterNoDup(tags, IsNot(t));
    }
    if t !in tags {
      FilterAll(tags, IsNot(t));
    }
  }

  /**
   * The merge rewrite: the source tag is filtered out and the target is
   * pushed at the end unless the filtered list already holds it.
   */
  function MergeTagList(tags: seq<string>, source: string, target: string): seq<string> {
    var kept := RemoveTag(tags, source);
    if target in kept then kept else kept + [target]
  }

  /**
   * After a merge the source is gone and the target is present; the other
   * tags keep their order and counts, the target is appended at the end iff
   * it was missing, and a duplicate-free list stays duplicate-free (so the
   * target then occurs exactly once).
   */
  lemma MergeTagListSpec(tags: seq<string>, source: string, target: string)
    requires source != target
    ensures var r := MergeTagList(tags, source, target);
      var kept := RemoveTag(tags, source);
      && source !in r
      && target in r
      && r[..|kept|] == kept
      && (|r| == |kept| + 1 <==> target !in tags)
      && multiset(r)[target] == (if target in tags then multiset(tags)[target] else 1)
      && (forall x :: x != source && x != target ==> multiset(r)[x] == multiset(tags)[x])
      && (NoDup(tags) ==> NoDup(r) && multiset(r)[target] == 1)
  {
    var kept := RemoveTag(tags, source);
    var r := MergeTagList(tags, source, target);
    assert target in kept <==> target in tags by {
      assert multiset(kept)[target] == multiset(tags)[target];
    }
    if NoDup(tags) {
      RemoveTagFacts(tags, source);
      if target !in kept {
        assert NoDup(r);
      }
      NoDupCountOne(r, target);
    }
  }

  /** In a duplicate-free list an element that occurs, occurs once. */
  lemma {:induction false} NoDupCountOne(s: seq<string>, x: string)
    requires NoDup(s) && x in s
    ensures multiset(s)[x] == 1
    decreases |s|
  {
    assert s == [s[0]] + s[1..];
    assert NoDup(s[1..]);
    if s[0] == x {
      assert x !in s[1..];
    } else {
      NoDupCountOne(s[1..], x);
    }
  }

  /** `tags.filter(tag => !selected.has(tag))`: the intended batch removal. */
  function RemoveTags(tags: seq<string>, selected: seq<string>): (r: seq<string>)
    ensures IsSubseq(r, tags)
    ensures forall t :: t in selected ==> t !in r
    ensures forall x :: x !in selected ==> multiset(r)[x] == multiset(tags)[x]
  {
    FilterSpec(tags, x => x !in selected);
    Filter(tags, x => x !in selected)
  }

  /** One bulk edit of the tag lists. */
  datatype TagEdit =
    | Rename(from: string, to: string)
    | Remove(tag: string)
    | Merge(source: string, target: string)
    | RemoveAll(selected: seq<string>)

  /** The article's tag list holds a tag the edit acts on (the `includes` guard). */
  predicate Affects(e: TagEdit, tags: seq<string>) {
    match e
    case Rename(from, _) => from in tags
    case Remove(t) => t in tags
    case Merge(source, _) => source in tags
    case RemoveAll(selected) => exists i :: 0 <= i < |tags| && tags[i] in selected
  }

  /** The new tag list an edit computes for one article. */
  function Rewrite(e: TagEdit, tags: seq<string>): seq<string> {
    match e
    case Rename(from, to) => RenameTags(tags, from, to)
    case Remove(t) => RemoveTag(tags, t)
    case Merge(source, target) => MergeTagList(tags, source, target)
    case RemoveAll(selected) => RemoveTags(tags, selected)
  }

  /** One `updateArticle(id, { tags })` call. */
  datatype TagWrite = TagWrite(id: string, tags: seq<string>)

  /**
   * The writes a handler issues while walking the snapshot, in order: one
   * per affected article, carrying the tag list computed from the snapshot
   * (`PlanWrites` states it).
   */
  function Plan(snapshot: seq<Article>, e: TagEdit): (r: seq<TagWrite>)
    ensures |r| <= |snapshot|
  {
    if |snapshot| == 0 then []
    else
      var init := snapshot[..|snapshot| - 1];
      var last := snapshot[|snapshot| - 1];
      Plan(init, e) + (if Affects(e, last.tags) then [TagWrite(last.id, Rewrite(e, last.tags))] else [])
  }

  /**
   * The handler issues a write for every affected snapshot article, carrying
   * the tag list computed from the snapshot, and no other write.
   */
  lemma {:induction false} PlanWrites(snapshot: seq<Article>, e: TagEdit)
    ensures forall w :: w in Plan(snapshot, e) ==> exists k :: (0 <= k < |snapshot| && Affects(e, snapshot[k].tags) &&
      w == TagWrite(snapshot[k].id, Rewrite(e, snapshot[k].tags)))
    ensures forall k :: 0 <= k < |snapshot| && Affects(e, snapshot[k].tags) ==>
      TagWrite(snapshot[k].id, Rewrite(e, snapshot[k].tags)) in Plan(snapshot, e)
    decreases |snapshot|
  {
    if |snapshot| > 0 {
      var init := snapshot[..|snapshot| - 1];
      var last := snapshot[|snapshot| - 1];
      PlanWrites(init, e);
      var r := Plan(snapshot, e);
      assert r == Plan(init, e) + (if Affects(e, last.tags) then [TagWrite(last.id, Rewrite(e, last.tags))] else []);
      forall w | w in r
        ensures exists k :: (0 <= k < |snapshot| && Affects(e, snapshot[k].tags) &&
          w == TagWrite(snapshot[k].id, Rewrite(e, snapshot[k].tags)))
      {
        if w in Plan(init, e) {
          var k :| 0 <= k < |init| && Affects(e, init[k].tags) && w == TagWrite(init[k].id, Rewrite(e, init[k].tags));
          assert init[k] == snapshot[k];
        } else {
          assert w == TagWrite(last.id, Rewrite(e, last.tags));
        }
      }
      assert forall k :: 0 <= k < |snapshot| - 1 ==> init[k] == snapshot[k];
    }
  }

  /** The store's article list after the writes, each applied to the latest state. */
  function ApplyWrites(arts: seq<Article>, plan: seq<TagWrite>, now: Timestamp): (r: seq<Article>)
    ensures |r| == |arts|
  {
    if |plan| == 0 then arts
    else
      var w := plan[|plan| - 1];
      UpdatedArticles(ApplyWrites(arts, plan[..|plan| - 1], now), w.id, TagsPatch(w.tags), now)
  }

  /** An affected article after the edit: new tag list, fresh `updatedAt`. */
  function Rewritten(a: Article, e: TagEdit, now: Timestamp): Article {
    a.(tags := Rewrite(e, a.tags), updatedAt := now)
  }

  /** Every affected article of `arts` rewritten in place, the others untouched. */
  function RewriteAll(arts: seq<Article>, e: TagEdit, now: Timestamp): (r: seq<Article>)
    ensures |r| == |arts|
  {
    seq(|arts|, k requires 0 <= k < |arts| =>
      if Affects(e, arts[k].tags) then Rewritten(arts[k], e, now) else arts[k])
  }

  /** `base` lists the same ids as `snapshot`, position by position. */
  predicate SameIds(base: seq<Article>, snapshot: seq<Article>) {
    |base| == |snapshot| && forall k :: 0 <= k < |base| ==> base[k].id == snapshot[k].id
  }

  /**
   * `base` with each of the first `i` articles that the edit affects in
   * `snapshot` given the tag list computed from the snapshot and a fresh
   * `updatedAt`; every other article as in `base`.
   */
  function RewriteUpTo(base: seq<Article>, snapshot: seq<Article>, e: TagEdit, now: Timestamp, i: nat): (r: seq<Article>)
    requires |base| == |snapshot|
    ensures |r| == |base|
  {
    seq(|base|, k requires 0 <= k < |base| =>
      if k < i && Affects(e, snapshot[k].tags)
      then base[k].(tags := Rewrite(e, snapshot[k].tags), updatedAt := now)
      else base[k])
  }

  lemma PlanStep(snapshot: seq<Article>, e: TagEdit, i: nat)
    requires i < |snapshot|
    ensures Plan(snapshot[..i + 1], e) == Plan(snapshot[..i], e) +
      (if Affects(e, snapshot[i].tags) then [TagWrite(snapshot[i].id, Rewrite(e, snapshot[i].tags))] else [])
  {
    assert snapshot[..i + 1][..i] == snapshot[..i];
  }

  lemma ApplyWritesSnoc(arts: seq<Article>, plan: seq<TagWrite>, w: TagWrite, now: Timestamp)
    ensures ApplyWrites(arts, plan + [w], now) ==
            UpdatedArticles(ApplyWrites(arts, plan, now), w.id, TagsPatch(w.tags), now)
  {
    assert (plan + [w])[..|plan|] == plan;
  }

  /** Issuing two lists of writes one after the other is issuing their concatenation. */
  lemma {:induction false} ApplyWritesAppend(arts: seq<Article>, p: seq<TagWrite>, q: seq<TagWrite>, now: Timestamp)
    ensures ApplyWrites(arts, p + q, now) == ApplyWrites(ApplyWrites(arts, p, now), q, now)
    decreases |q|
  {
    if |q| == 0 {
      assert p + q == p;
    } else {
      var init := q[..|q| - 1];
      ApplyWritesAppend(arts, p, init, now);
      assert (p + q)[..|p + q| - 1] == p + init;
    }
  }

  /**
   * Under unique snapshot ids, the write for snapshot article `j` changes
   * only position `j` of a list with the same ids, which no earlier write
   * has touched.
   */
  lemma RewriteStep(base: seq<Article>, snapshot: seq<Article>, e: TagEdit, now: Timestamp, j: nat)
    requires UniqueArticleIds(snapshot) && SameIds(base, snapshot) && j < |snapshot|
    ensures Affects(e, snapshot[j].tags) ==>
      UpdatedArticles(RewriteUpTo(base, snapshot, e, now, j), snapshot[j].id,
                      TagsPatch(Rewrite(e, snapshot[j].tags)), now) ==
      RewriteUpTo(base, snapshot, e, now, j + 1)
    ensures !Affects(e, snapshot[j].tags) ==>
      RewriteUpTo(base, snapshot, e, now, j) == RewriteUpTo(base, snapshot, e, now, j + 1)
  {
    var x := RewriteUpTo(base, snapshot, e, now, j);
    var z := RewriteUpTo(base, snapshot, e, now, j + 1);
    if Affects(e, snapshot[j].tags) {
      var y := UpdatedArticles(x, snapshot[j].id, TagsPatch(Rewrite(e, snapshot[j].tags)), now);
      forall k | 0 <= k < |base| ensures y[k] == z[k] {
        if k != j {
          assert snapshot[k].id != snapshot[j].id;
          assert x[k].id == snapshot[k].id;
        }
      }
    }
  }

  /**
   * While the snapshot ids are unique, the writes for the first `i` snapshot
   * articles, applied to any list with the same ids, leave exactly those
   * affected articles with their new tag lists: each write computed from the
   * snapshot lands on the article it came from.
   */
  lemma {:induction false} PlanPrefixApplied(base: seq<Article>, snapshot: seq<Article>, e: TagEdit, now: Timestamp, i: nat)
    requires UniqueArticleIds(snapshot) && SameIds(base, snapshot) && i <= |snapshot|
    ensures ApplyWrites(base, Plan(snapshot[..i], e), now) == RewriteUpTo(base, snapshot, e, now, i)
    decreases i
  {
    if i == 0 {
      assert RewriteUpTo(base, snapshot, e, now, 0) == base;
    } else {
      var j := i - 1;
      PlanPrefixApplied(base, snapshot, e, now, j);
      PlanStep(snapshot, e, j);
      RewriteStep(base, snapshot, e, now, j);
      if Affects(e, snapshot[j].tags) {
        ApplyWritesSnoc(base, Plan(snapshot[..j], e), TagWrite(snapshot[j].id, Rewrite(e, snapshot[j].tags)), now);
      } else {
        assert Plan(snapshot[..j], e) + [] == Plan(snapshot[..j], e);
      }
    }
  }

  /**
   * With unique article ids a handler's writes amount to rewriting every
   * affected article in place (drafts included) and leaving every other
   * article untouched.
   */
  lemma PlanApplied(arts: seq<Article>, e: TagEdit, now: Timestamp)
    requires UniqueArticleIds(arts)
    ensures ApplyWrites(arts, Plan(arts, e), now) == RewriteAll(arts, e, now)
  {
    PlanPrefixApplied(arts, arts, e, now, |arts|);
    assert arts[..|arts|] == arts;
  }

  /**
   * The combined effect of a rename: every article that held the old name now
   * has the new one in its place and no longer the old one; the others are
   * untouched.
   */
  lemma RenameApplied(arts: seq<Article>, from: string, to: string, now: Timestamp)
    requires UniqueArticleIds(arts) && from != to
    ensures var r := ApplyWrites(arts, Plan(arts, Rename(from, to)), now);
      && |r| == |arts|
      && (forall k :: 0 <= k < |arts| ==> from !in r[k].tags && r[k].id == arts[k].id)
      && (forall k :: 0 <= k < |arts| && from !in arts[k].tags ==> r[k] == arts[k])
      && (forall k :: 0 <= k < |arts| ==> |r[k].tags| == |arts[k].tags|)
      && (forall k, i :: 0 <= k < |arts| && 0 <= i < |arts[k].tags| ==>
            r[k].tags[i] == if arts[k].tags[i] == from then to else arts[k].tags[i])
  {
    PlanApplied(arts, Rename(from, to), now);
    forall k | 0 <= k < |arts| ensures from !in RewriteAll(arts, Rename(from, to), now)[k].tags {
      RenameTagsSpec(arts[k].tags, from, to);
    }
  }

  /** The combined effect of deleting one tag: it is gone from every article. */
  lemma RemoveApplied(arts: seq<Article>, t: string, now: Timestamp)
    requires UniqueArticleIds(arts)
    ensures var r := ApplyWrites(arts, Plan(arts, Remove(t)), now);
      && |r| == |arts|
      && (forall k :: 0 <= k < |arts| ==> t !in r[k].tags && r[k].id == arts[k].id)
      && (forall k :: 0 <= k < |arts| && t !in arts[k].tags ==> r[k] == arts[k])
  {
    PlanApplied(arts, Remove(t), now);
  }

  /**
   * The combined effect of a merge: no article holds the source any more,
   * every article that held it now holds the target, and the others are
   * untouched.
   */
  lemma MergeApplied(arts: seq<Article>, source: string, target: string, now: Timestamp)
    requires UniqueArticleIds(arts) && source != target
    ensures var r := ApplyWrites(arts, Plan(arts, Merge(source, target)), now);
      && |r| == |arts|
      && (forall k :: 0 <= k < |arts| ==> source !in r[k].tags && r[k].id == arts[k].id)
      && (forall k :: 0 <= k < |arts| && source in arts[k].tags ==> target in r[k].tags)
      && (forall k :: 0 <= k < |arts| && source !in arts[k].tags ==> r[k] == arts[k])
  {
    PlanApplied(arts, Merge(source, target), now);
    var r := RewriteAll(arts, Merge(source, target), now);
    forall k | 0 <= k < |arts|
      ensures source !in r[k].tags && r[k].id == arts[k].id
      ensures source in arts[k].tags ==> target in r[k].tags
      ensures source !in arts[k].tags ==> r[k] == arts[k]
    {
      if source in arts[k].tags {
        MergedList(arts[k].tags, source, target);
      }
    }
  }

  /** A merged tag list has the target and not the source. */
  lemma MergedList(tags: seq<string>, source: string, target: string)
    requires source != target
    ensures source !in MergeTagList(tags, source, target) && target in MergeTagList(tags, source, target)
  {
    MergeTagListSpec(tags, source, target);
  }

  /**
   * The batch delete as written: for each selected tag in turn, the writes of
   * a single-tag delete, every one computed from the same snapshot. Each
   * write therefore removes exactly one selected tag from a snapshot tag list.
   */
  function BatchPlanAsWritten(snapshot: seq<Article>, selected: seq<string>): (r: seq<TagWrite>)
    ensures forall w :: w in r ==> exists j, k :: (0 <= j < |selected| && 0 <= k < |snapshot| &&
      selected[j] in snapshot[k].tags && w == TagWrite(snapshot[k].id, RemoveTag(snapshot[k].tags, selected[j])))
  {
    if |selected| == 0 then []
    else
      var init := selected[..|selected| - 1];
      var t := selected[|selected| - 1];
      var r := BatchPlanAsWritten(snapshot, init) + Plan(snapshot, Remove(t));
      assert forall w :: w in r ==> exists j, k :: (0 <= j < |selected| && 0 <= k < |snapshot| &&
        selected[j] in snapshot[k].tags && w == TagWrite(snapshot[k].id, RemoveTag(snapshot[k].tags, selected[j]))) by {
        PlanWrites(snapshot, Remove(t));
        forall w | w in r
          ensures exists j, k :: (0 <= j < |selected| && 0 <= k < |snapshot| &&
            selected[j] in snapshot[k].tags && w == TagWrite(snapshot[k].id, RemoveTag(snapshot[k].tags, selected[j])))
        {
          if w in BatchPlanAsWritten(snapshot, init) {
            var j, k :| 0 <= j < |init| && 0 <= k < |snapshot| &&
              init[j] in snapshot[k].tags && w == TagWrite(snapshot[k].id, RemoveTag(snapshot[k].tags, init[j]));
            assert selected[j] == init[j];
          } else {
            var k :| 0 <= k < |snapshot| && Affects(Remove(t), snapshot[k].tags) &&
              w == TagWrite(snapshot[k].id, Rewrite(Remove(t), snapshot[k].tags));
            assert selected[|selected| - 1] == t;
          }
        }
      }
      r
  }

  /** The position of the last selected tag the list holds, if any. */
  function LastHeld(selected: seq<string>, tags: seq<string>): (r: Option<nat>)
    ensures r.Some? ==> r.value < |selected| && selected[r.value] in tags
    ensures r.Some? ==> forall j :: r.value < j < |selected| ==> selected[j] !in tags
    ensures r.None? ==> forall j :: 0 <= j < |selected| ==> selected[j] !in tags
  {
    if |selected| == 0 then None
    else if selected[|selected| - 1] in tags then Some(|selected| - 1)
    else LastHeld(selected[..|selected| - 1], tags)
  }

  /**
   * One article after the batch delete as written: untouched when it holds
   * no selected tag, otherwise stamped and stripped of the last selected tag
   * it holds only.
   */
  function BatchOutcomeAsWritten(a: Article, selected: seq<string>, now: Timestamp): Article {
    match LastHeld(selected, a.tags)
    case None => a
    case Some(j) => a.(tags := RemoveTag(a.tags, selected[j]), updatedAt := now)
  }

  /** Adding a tag at the end of the selection: an article holding it loses that tag, from the snapshot list. */
  lemma BatchOutcomeStep(a: Article, selected: seq<string>, now: Timestamp)
    requires |selected| > 0
    ensures var init := selected[..|selected| - 1];
      var t := selected[|selected| - 1];
      BatchOutcomeAsWritten(a, selected, now) ==
        if t in a.tags then BatchOutcomeAsWritten(a, init, now).(tags := RemoveTag(a.tags, t), updatedAt := now)
        else BatchOutcomeAsWritten(a, init, now)
  {
  }

  /** The as-written batch writes, by induction on the selection. */
  lemma {:induction false} BatchPlanApplied(arts: seq<Article>, selected: seq<string>, now: Timestamp)
    requires UniqueArticleIds(arts)
    ensures var r := ApplyWrites(arts, BatchPlanAsWritten(arts, selected), now);
      forall k :: 0 <= k < |arts| ==> r[k] == BatchOutcomeAsWritten(arts[k], selected, now)
    decreases |selected|
  {
    if |selected| > 0 {
      var init := selected[..|selected| - 1];
      var t := selected[|selected| - 1];
      BatchPlanApplied(arts, init, now);
      var p := BatchPlanAsWritten(arts, init);
      var q := Plan(arts, Remove(t));
      var y := ApplyWrites(arts, p, now);
      assert SameIds(y, arts) by {
        forall k | 0 <= k < |arts| ensures y[k].id == arts[k].id {
          assert y[k] == BatchOutcomeAsWritten(arts[k], init, now);
        }
      }
      assert BatchPlanAsWritten(arts, selected) == p + q;
      ApplyWritesAppend(arts, p, q, now);
      PlanPrefixApplied(y, arts, Remove(t), now, |arts|);
      assert arts[..|arts|] == arts;
      var r := RewriteUpTo(y, arts, Remove(t), now, |arts|);
      forall k | 0 <= k < |arts| ensures r[k] == BatchOutcomeAsWritten(arts[k], selected, now) {
        BatchOutcomeStep(arts[k], selected, now);
      }
    }
  }

  /**
   * The batch delete as written, for every article: one that holds no
   * selected tag is untouched; one that holds some loses only the selected
   * tag that comes last in the selection, because each later write replaces
   * the whole tag list with one computed from the snapshot. Every other
   * selected tag it held survives.
   */
  lemma BatchDeleteAsWritten(arts: seq<Article>, selected: seq<string>, now: Timestamp)
    requires UniqueArticleIds(arts)
    ensures var r := ApplyWrites(arts, BatchPlanAsWritten(arts, selected), now);
      && |r| == |arts|
      && (forall k :: 0 <= k < |arts| && (forall j :: 0 <= j < |selected| ==> selected[j] !in arts[k].tags) ==>
            r[k] == arts[k])
      && (forall k, j ::
            (0 <= k < |arts| && 0 <= j < |selected| && selected[j] in arts[k].tags &&
             (forall i :: j < i < |selected| ==> selected[i] !in arts[k].tags)) ==>
            && r[k] == arts[k].(tags := RemoveTag(arts[k].tags, selected[j]), updatedAt := now)
            && (forall i :: 0 <= i < |selected| && selected[i] in arts[k].tags && selected[i] != selected[j] ==>
                  selected[i] in r[k].tags))
  {
    BatchPlanApplied(arts, selected, now);
    var r := ApplyWrites(arts, BatchPlanAsWritten(arts, selected), now);
    forall k | 0 <= k < |arts| && (forall j :: 0 <= j < |selected| ==> selected[j] !in arts[k].tags)
      ensures r[k] == arts[k]
    {
      assert LastHeld(selected, arts[k].tags).None?;
    }
    forall k, j | (0 <= k < |arts| && 0 <= j < |selected| && selected[j] in arts[k].tags &&
      (forall i :: j < i < |selected| ==> selected[i] !in arts[k].tags))
      ensures r[k] == arts[k].(tags := RemoveTag(arts[k].tags, selected[j]), updatedAt := now)
      ensures forall i :: 0 <= i < |selected| && selected[i] in arts[k].tags && selected[i] != selected[j] ==>
                selected[i] in r[k].tags
    {
      HeldLast(selected, arts[k].tags, j);
      assert r[k] == BatchOutcomeAsWritten(arts[k], selected, now);
      forall i | 0 <= i < |selected| && selected[i] in arts[k].tags && selected[i] != selected[j]
        ensures selected[i] in r[k].tags
      {
        assert multiset(r[k].tags)[selected[i]] == multiset(arts[k].tags)[selected[i]];
      }
    }
  }

  /** A held selected tag that no later selected tag follows is the one `LastHeld` finds. */
  lemma HeldLast(selected: seq<string>, tags: seq<string>, j: nat)
    requires j < |selected| && selected[j] in tags
    requires forall i :: j < i < |selected| ==> selected[i] !in tags
    ensures LastHeld(selected, tags) == Some(j)
  {
  }

  /** An article tagged `a` and `b`, for the batch-delete counterexample. */
  function SampleArticle(): Article {
    Article("1", "Title", "Body", "", "1", ["a", "b"], "Admin", 0, 0, None, true)
  }

  /**
   * Selecting both of its tags and batch-deleting leaves the article with
   * tag `a`: the write for `b`, computed from the snapshot that still holds
   * `a`, overwrites the write that removed `a`.
   */
  lemma BatchDeleteKeepsSelectedTag()
    ensures ApplyWrites([SampleArticle()], BatchPlanAsWritten([SampleArticle()], ["a", "b"]), 5)[0].tags == ["a"]
  {
    var arts := [SampleArticle()];
    SampleBatchPlan();
    var plan := [TagWrite("1", ["b"]), TagWrite("1", ["a"])];
    assert plan[..1] == [TagWrite("1", ["b"])] && plan[..1][..0] == [];
    var first := ApplyWrites(arts, plan[..1], 5);
    assert ApplyWrites(arts, plan[..1][..0], 5) == arts;
    assert first == UpdatedArticles(arts, "1", TagsPatch(["b"]), 5);
    UpdatedArticlesSpec(arts, "1", TagsPatch(["b"]), 5);
    assert first[0].id == "1";
    UpdatedArticlesSpec(first, "1", TagsPatch(["a"]), 5);
  }

  /** The writes the batch delete issues for the sample: first `[b]`, then `[a]`. */
  lemma SampleBatchPlan()
    ensures BatchPlanAsWritten([SampleArticle()], ["a", "b"]) == [TagWrite("1", ["b"]), TagWrite("1", ["a"])]
  {
    var a := SampleArticle();
    var arts := [a];
    SamplePlans();
    var sel := ["a", "b"];
    assert sel[..1] == ["a"] && sel[..1][..0] == [];
    assert BatchPlanAsWritten(arts, sel[..1][..0]) == [];
    assert BatchPlanAsWritten(arts, sel[..1]) == [TagWrite("1", ["b"])];
  }

  /** The single-tag writes for the sample article. */
  lemma SamplePlans()
    ensures Plan([SampleArticle()], Remove("a")) == [TagWrite("1", ["b"])]
    ensures Plan([SampleArticle()], Remove("b")) == [TagWrite("1", ["a"])]
  {
    var a := SampleArticle();
    var arts := [a];
    assert arts[..0] == [];
    assert RemoveTag(a.tags, "a") == ["b"] by {
      assert a.tags == ["a"] + ["b"];
    }
    assert RemoveTag(a.tags, "b") == ["a"] by {
      assert a.tags == ["a"] + ["b"];
    }
  }

  /**
   * The intended batch delete (one write per article, removing every
   * selected tag at once): afterwards no article holds any selected tag, and
   * articles that held none are untouched.
   */
  lemma BatchDeleteApplied(arts: seq<Article>, selected: seq<string>, now: Timestamp)
    requires UniqueArticleIds(arts)
    ensures var r := ApplyWrites(arts, Plan(arts, RemoveAll(selected)), now);
      && |r| == |arts|
      && (forall k, t :: 0 <= k < |arts| && t in selected ==> t !in r[k].tags)
      && (forall k :: 0 <= k < |arts| && !Affects(RemoveAll(selected), arts[k].tags) ==> r[k] == arts[k])
  {
    PlanApplied(arts, RemoveAll(selected), now);
  }
}
