/**
 * The tag-management page: the search filter and statistics over the tag
 * index, the rename / delete / merge / batch-delete handlers that rewrite the
 * articles' tag lists through the store, and the tag selection.
 *
 * The selection is a JavaScript `Set`, kept here as a duplicate-free sequence
 * in insertion order. `window.confirm` is a boolean input; `alert` calls are
 * the early returns that leave the state alone.
 */
module TagsManagement {
  import opened BlogTypes
  import opened Seqs
  import opened Text
  import opened TagCounting
  import opened BlogStore
  import opened TagRewrite

  /** The tag name contains the search term, ignoring (ASCII) case. */
  predicate MatchesSearch(term: string, t: Tag) {
    Contains(ToLower(t.name), ToLower(term))
  }

  function CountOf(t: Tag): int {
    t.count
  }

  /**
   * `filteredTags`: the tags matching the search term, most used first. The
   * result holds every matching tag as often as the index does and nothing
   * else, ordered by descending count.
   */
  function FilteredTags(allTags: seq<Tag>, term: string): (r: seq<Tag>)
    ensures SortedDesc(r, CountOf)
    ensures forall t :: multiset(r)[t] == if MatchesSearch(term, t) then multiset(allTags)[t] else 0
  {
    var matching := Filter(allTags, t => MatchesSearch(term, t));
    FilterSpec(allTags, t => MatchesSearch(term, t));
    SortDescSorted(matching, CountOf);
    SortDesc(matching, CountOf)
  }

  /** An empty search lists every tag (reordered by count). */
  lemma EmptySearchKeepsAll(allTags: seq<Tag>)
    ensures multiset(FilteredTags(allTags, "")) == multiset(allTags)
  {
    forall t ensures MatchesSearch("", t) {
      ContainsEmpty(ToLower(t.name));
    }
  }

  /** The `{ name: '無', count: 0 }` stand-in when there are no tags. */
  const Placeholder := Tag("", "\U{7121}", 0)

  /** `rest.reduce((max, tag) => tag.count > max.count ? tag : max, best)` */
  function MaxByCount(best: Tag, rest: seq<Tag>): Tag
    decreases |rest|
  {
    if |rest| == 0 then best
    else MaxByCount(if rest[0].count > best.count then rest[0] else best, rest[1..])
  }

  /** Position `i` holds the first tag of maximal count. */
  predicate FirstMax(tags: seq<Tag>, i: int) {
    && 0 <= i < |tags|
    && (forall j :: 0 <= j < |tags| ==> tags[j].count <= tags[i].count)
    && (forall j :: 0 <= j < i ==> tags[j].count < tags[i].count)
  }

  /**
   * The fold keeps the earliest strictly larger count: the result is at least
   * as large as everything seen, and it is either the starting tag or the
   * first tag of `rest` that beats every tag before it.
   */
  lemma {:induction false} MaxByCountSpec(best: Tag, rest: seq<Tag>)
    ensures var r := MaxByCount(best, rest);
      && r.count >= best.count
      && (forall j :: 0 <= j < |rest| ==> rest[j].count <= r.count)
      && (r == best || exists i :: 0 <= i < |rest| && r == rest[i] && r.count > best.count &&
                                   forall j :: 0 <= j < i ==> rest[j].count < r.count)
    decreases |rest|
  {
    if |rest| > 0 {
      var next := if rest[0].count > best.count then rest[0] else best;
      var tail := rest[1..];
      MaxByCountSpec(next, tail);
      var r := MaxByCount(next, tail);
      assert r == MaxByCount(best, rest);
      forall j | 0 <= j < |rest| ensures rest[j].count <= r.count {
        if j > 0 {
          assert rest[j] == tail[j - 1];
        }
      }
      if r != next {
        var i :| 0 <= i < |tail| && r == tail[i] && r.count > next.count &&
                 forall j :: 0 <= j < i ==> tail[j].count < r.count;
        assert r == rest[i + 1];
        forall j | 0 <= j < i + 1 ensures rest[j].count < r.count {
          if j > 0 {
            assert rest[j] == tail[j - 1];
          }
        }
      }
    }
  }

  /** `mostUsedTag`: the first tag of maximal count, or the placeholder when there are no tags. */
  function MostUsed(tags: seq<Tag>): (r: Tag)
    ensures |tags| == 0 ==> r == Placeholder
    ensures |tags| > 0 ==> exists i :: FirstMax(tags, i) && r == tags[i]
  {
    if |tags| == 0 then Placeholder
    else
      FoldFindsFirstMax(tags);
      MaxByCount(tags[0], tags)
  }

  /** Folding from the first tag over all tags lands on the first tag of maximal count. */
  lemma FoldFindsFirstMax(tags: seq<Tag>)
    requires |tags| > 0
    ensures exists i :: FirstMax(tags, i) && MaxByCount(tags[0], tags) == tags[i]
  {
    MaxByCountSpec(tags[0], tags);
    var r := MaxByCount(tags[0], tags);
    if r == tags[0] {
      assert FirstMax(tags, 0);
    } else {
      var i :| 0 <= i < |tags| && r == tags[i] && r.count > tags[0].count &&
               forall j :: 0 <= j < i ==> tags[j].count < r.count;
      assert FirstMax(tags, i);
    }
  }

  predicate IsUnused(t: Tag) {
    t.count == 0
  }

  datatype TagStats = TagStats(totalTags: nat, totalUsages: nat, mostUsed: Tag, unusedTags: nat)

  /** The positions of the tags whose count is zero. */
  ghost function ZeroPositions(tags: seq<Tag>): set<int> {
    set i | 0 <= i < |tags| && IsUnused(tags[i])
  }

  /** One more tag adds its own position when its count is zero. */
  lemma ZeroPositionsSnoc(s: seq<Tag>, x: Tag)
    ensures ZeroPositions(s + [x]) == ZeroPositions(s) + (if IsUnused(x) then {|s|} else {})
    ensures |s| !in ZeroPositions(s)
  {
    var t := s + [x];
    forall i | 0 <= i < |s| ensures t[i] == s[i] {
    }
    assert t[|s|] == x;
  }

  /** Keeping the unused tags keeps one entry per zero-count position. */
  lemma {:induction false} UnusedCount(tags: seq<Tag>)
    ensures |Filter(tags, IsUnused)| == |ZeroPositions(tags)|
    decreases |tags|
  {
    if |tags| > 0 {
      var s, x := tags[..|tags| - 1], tags[|tags| - 1];
      assert tags == s + [x];
      UnusedCount(s);
      FilterSnoc(s, x, IsUnused);
      ZeroPositionsSnoc(s, x);
    }
  }

  /**
   * `tagStats`: the number of tags, the sum of their counts, the first tag of
   * maximal count (the placeholder when there are none) and the number of
   * positions holding a tag of count zero.
   */
  function Stats(allTags: seq<Tag>): (st: TagStats)
    ensures st.totalTags == |allTags| && st.unusedTags <= st.totalTags
    ensures st.totalUsages == SumCounts(allTags)
    ensures st.mostUsed == MostUsed(allTags)
    ensures |allTags| > 0 ==> exists i :: FirstMax(allTags, i) && st.mostUsed == allTags[i]
    ensures st.unusedTags == |ZeroPositions(allTags)|
    ensures |allTags| == 0 ==> st == TagStats(0, 0, Placeholder, 0)
    ensures forall i :: 0 <= i < |allTags| ==> allTags[i].count <= st.mostUsed.count
    ensures (forall i :: 0 <= i < |allTags| ==> allTags[i].count > 0) ==> st.unusedTags == 0
  {
    UnusedCount(allTags);
    var st := TagStats(|allTags|, SumCounts(allTags), MostUsed(allTags), |Filter(allTags, IsUnused)|);
    if forall i :: 0 <= i < |allTags| ==> allTags[i].count > 0 then
      FilterNone(allTags, IsUnused);
      st
    else st
  }

  /**
   * Over the tag index the usages add up to the published tag-list entries,
   * and no tag is ever unused (every entry counts at least one use).
   */
  lemma StatsOfIndex(arts: seq<Article>)
    ensures var st := Stats(TagIndex(arts));
      && st.totalTags == |Distinct(PublishedTagEntries(arts))|
      && st.totalUsages == TotalTagEntries(arts)
      && st.unusedTags == 0
  {
    TagIndexSpec(arts);
    TagIndexSum(arts);
    FilterNone(TagIndex(arts), IsUnused);
  }

  /** `getTagArticles`: the articles, drafts included, whose tag list holds the name, in order. */
  function TagArticles(arts: seq<Article>, tagName: string): (r: seq<Article>)
    ensures IsSubseq(r, arts)
    ensures forall a :: multiset(r)[a] == if tagName in a.tags then multiset(arts)[a] else 0
  {
    FilterSpec(arts, (a: Article) => tagName in a.tags);
    Filter(arts, (a: Article) => tagName in a.tags)
  }

  /** Some existing tag has this name, ignoring (ASCII) case. */
  predicate NameTaken(allTags: seq<Tag>, name: string) {
    exists i :: 0 <= i < |allTags| && ToLower(allTags[i].name) == ToLower(name)
  }

  datatype RenameOutcome = Cancelled | Taken | Renamed(name: string)

  /**
   * The checks `handleRenameTag` runs before rewriting anything: a blank or
   * unchanged (trimmed) name cancels; otherwise the rename is refused exactly
   * when the trimmed name equals an existing tag name up to case, and
   * accepted with the trimmed name exactly when it does not.
   */
  function RenameCheck(oldName: string, newName: string, allTags: seq<Tag>): (r: RenameOutcome)
    ensures r == Cancelled <==> IsBlank(newName) || oldName == Trim(newName)
    ensures r == Taken <==> !IsBlank(newName) && oldName != Trim(newName) && NameTaken(allTags, Trim(newName))
    ensures !IsBlank(newName) && oldName != Trim(newName) && !NameTaken(allTags, Trim(newName)) ==>
      r == Renamed(Trim(newName))
  {
    var name := Trim(newName);
    if name == [] || oldName == name then Cancelled
    else if NameTaken(allTags, name) then Taken
    else Renamed(name)
  }

  /**
   * An accepted name is non-empty, differs from the old name and clashes with
   * no tag even up to case; a case-only change of an existing tag's name is
   * refused, because the tag itself clashes.
   */
  lemma RenameCheckSpec(oldName: string, newName: string, allTags: seq<Tag>)
    ensures var r := RenameCheck(oldName, newName, allTags);
      && (r.Renamed? ==> r.name != [] && r.name != oldName &&
                         forall i :: 0 <= i < |allTags| ==> ToLower(allTags[i].name) != ToLower(r.name))
      && ((oldName in TagNames(allTags) && !IsBlank(newName) && Trim(newName) != oldName &&
           ToLower(Trim(newName)) == ToLower(oldName)) ==> r == Taken)
  {
    if oldName in TagNames(allTags) {
      var i :| 0 <= i < |allTags| && TagNames(allTags)[i] == oldName;
      assert allTags[i].name == oldName;
    }
  }

  /**
   * One `forEach` over an article snapshot issuing `updateArticle` for every
   * snapshot article the edit affects; each write lands on the current list.
   */
  method IssueWrites(store: Store, snapshot: seq<Article>, e: TagEdit, now: Timestamp)
    modifies store
    ensures store.articles == ApplyWrites(old(store.articles), Plan(snapshot, e), now)
    ensures store.categories == old(store.categories)
  {
    var start := store.articles;
    assert snapshot[..0] == [];
    for i := 0 to |snapshot|
      invariant store.articles == ApplyWrites(start, Plan(snapshot[..i], e), now)
      invariant store.categories == old(store.categories)
    {
      var article := snapshot[i];
      PlanStep(snapshot, e, i);
      if Affects(e, article.tags) {
        var tags := Rewrite(e, article.tags);
        ApplyWritesSnoc(start, Plan(snapshot[..i], e), TagWrite(article.id, tags), now);
        store.UpdateArticle(article.id, TagsPatch(tags), now);
      } else {
        assert Plan(snapshot[..i], e) + [] == Plan(snapshot[..i], e);
      }
    }
    assert snapshot[..|snapshot|] == snapshot;
  }

  /**
   * The nested `forEach` of the batch delete as written: for each selected
   * tag, the writes of a single-tag delete computed from the list as it was
   * before the first write.
   */
  method IssueBatchAsWritten(store: Store, selected: seq<string>, now: Timestamp)
    modifies store
    ensures store.articles == ApplyWrites(old(store.articles), BatchPlanAsWritten(old(store.articles), selected), now)
    ensures store.categories == old(store.categories)
  {
    var snapshot := store.articles;
    assert selected[..0] == [];
    for i := 0 to |selected|
      invariant store.articles == ApplyWrites(snapshot, BatchPlanAsWritten(snapshot, selected[..i]), now)
      invariant store.categories == old(store.categories)
    {
      assert selected[..i + 1][..i] == selected[..i];
      ApplyWritesAppend(snapshot, BatchPlanAsWritten(snapshot, selected[..i]), Plan(snapshot, Remove(selected[i])), now);
      IssueWrites(store, snapshot, Remove(selected[i]), now);
    }
    assert selected[..|selected|] == selected;
  }

  /** A single-edit handler: the snapshot is the article list it starts from. */
  method ApplyEdit(store: Store, e: TagEdit, now: Timestamp)
    modifies store
    ensures store.articles == ApplyWrites(old(store.articles), Plan(old(store.articles), e), now)
    ensures store.categories == old(store.categories)
  {
    IssueWrites(store, store.articles, e, now);
  }

  /** Toggling a name in an insertion-ordered set: delete it if present, else add it at the end. */
  function Toggled(s: seq<string>, name: string): (r: seq<string>)
    ensures name in r <==> name !in s
    ensures forall x :: x != name ==> (x in r <==> x in s)
    ensures NoDup(s) ==> NoDup(r)
  {
    if name in s then
      RemoveTagFacts(s, name);
      RemoveTag(s, name)
    else s + [name]
  }

  /**
   * Toggling twice restores the selected names; the order is restored too
   * when the name was not selected (re-adding a name moves it to the end).
   */
  lemma ToggleTwice(s: seq<string>, name: string)
    ensures forall x :: x in Toggled(Toggled(s, name), name) <==> x in s
    ensures name !in s ==> Toggled(Toggled(s, name), name) == s
  {
    if name !in s {
      RemoveTagFacts(s, name);
      FilterSnoc(s, name, x => x != name);
    }
  }

  class TagsPage {
    var searchTerm: string
    var selected: seq<string>
    var deleteConfirm: string
    var editingTag: string
    var newTagName: string
    var showMergeModal: bool
    var mergeSource: string
    var mergeTarget: string

    /** The selection is a set: no name twice. */
    ghost predicate Valid()
      reads this
    {
      NoDup(selected)
    }

    constructor ()
      ensures Valid()
      ensures searchTerm == [] && selected == [] && deleteConfirm == []
      ensures editingTag == [] && newTagName == [] && !showMergeModal
      ensures mergeSource == [] && mergeTarget == []
    {
      searchTerm := [];
      selected := [];
      deleteConfirm := [];
      editingTag := [];
      newTagName := [];
      showMergeModal := false;
      mergeSource := [];
      mergeTarget := [];
    }

    /**
     * `handleRenameTag`: a cancelled rename only clears the edit state; a
     * refused one changes nothing; an accepted one rewrites the old name to
     * the trimmed new one in every article holding it, then clears the edit
     * state. Names are checked against the tags of published articles.
     */
    method RenameTag(store: Store, oldName: string, newName: string, now: Timestamp)
      modifies this, store
      ensures var d := RenameCheck(oldName, newName, TagIndex(old(store.articles)));
        && (d.Renamed? ==>
              store.articles == ApplyWrites(old(store.articles), Plan(old(store.articles), Rename(oldName, d.name)), now))
        && (!d.Renamed? ==> store.articles == old(store.articles))
        && (d == Taken ==> editingTag == old(editingTag) && newTagName == old(newTagName))
        && (d != Taken ==> editingTag == [] && newTagName == [])
      ensures store.categories == old(store.categories)
      ensures selected == old(selected) && deleteConfirm == old(deleteConfirm) && searchTerm == old(searchTerm)
      ensures showMergeModal == old(showMergeModal)
      ensures mergeSource == old(mergeSource) && mergeTarget == old(mergeTarget)
    {
      var allTags := store.GetAllTags();
      var d := RenameCheck(oldName, newName, allTags);
      FinishRename(store, oldName, d, now);
    }

    /** What `handleRenameTag` does once the checks have decided. */
    method FinishRename(store: Store, oldName: string, d: RenameOutcome, now: Timestamp)
      modifies this, store
      ensures d.Renamed? ==>
        store.articles == ApplyWrites(old(store.articles), Plan(old(store.articles), Rename(oldName, d.name)), now)
      ensures !d.Renamed? ==> store.articles == old(store.articles)
      ensures d == Taken ==> editingTag == old(editingTag) && newTagName == old(newTagName)
      ensures d != Taken ==> editingTag == [] && newTagName == []
      ensures store.categories == old(store.categories)
      ensures selected == old(selected) && deleteConfirm == old(deleteConfirm) && searchTerm == old(searchTerm)
      ensures showMergeModal == old(showMergeModal)
      ensures mergeSource == old(mergeSource) && mergeTarget == old(mergeTarget)
    {
      match d {
        case Cancelled =>
          editingTag := [];
          newTagName := [];
        case Taken =>
        case Renamed(name) =>
          ApplyEdit(store, Rename(oldName, name), now);
          editingTag := [];
          newTagName := [];
      }
    }

    /**
     * `handleDeleteTag`: a click on a tag other than the armed one arms it;
     * a click on the armed tag removes it from every article, disarms, and
     * drops it from the selection.
     */
    method DeleteTag(store: Store, tagName: string, now: Timestamp)
      requires Valid()
      modifies this, store
      ensures Valid()
      ensures old(deleteConfirm) != tagName ==>
        && deleteConfirm == tagName && selected == old(selected)
        && store.articles == old(store.articles)
      ensures old(deleteConfirm) == tagName ==>
        && deleteConfirm == [] && selected == RemoveTag(old(selected), tagName)
        && store.articles == ApplyWrites(old(store.articles), Plan(old(store.articles), Remove(tagName)), now)
      ensures store.categories == old(store.categories)
      ensures editingTag == old(editingTag) && newTagName == old(newTagName) && searchTerm == old(searchTerm)
      ensures showMergeModal == old(showMergeModal)
      ensures mergeSource == old(mergeSource) && mergeTarget == old(mergeTarget)
    {
      if deleteConfirm != tagName {
        deleteConfirm := tagName;
        return;
      }
      ApplyEdit(store, Remove(tagName), now);
      deleteConfirm := [];
      RemoveTagFacts(selected, tagName);
      selected := RemoveTag(selected, tagName);
    }

    /**
     * `handleBatchDelete` as written: when confirmed, a single-tag delete
     * for each selected tag in selection order, every one computed from the
     * article list as it was before the first write; then the selection is
     * emptied. Under unique ids each article ends up without only the last
     * selected tag it held.
     */
    method BatchDeleteAsWritten(store: Store, confirmed: bool, now: Timestamp)
      requires Valid()
      modifies this, store
      ensures Valid()
      ensures !confirmed ==> selected == old(selected) && store.articles == old(store.articles)
      ensures confirmed ==> selected == []
      ensures confirmed ==>
                store.articles == ApplyWrites(old(store.articles), BatchPlanAsWritten(old(store.articles), old(selected)), now)
      ensures confirmed && UniqueArticleIds(old(store.articles)) ==>
                && |store.articles| == |old(store.articles)|
                && forall k :: 0 <= k < |store.articles| ==>
                     store.articles[k] == BatchOutcomeAsWritten(old(store.articles)[k], old(selected), now)
      ensures store.categories == old(store.categories)
      ensures deleteConfirm == old(deleteConfirm) && editingTag == old(editingTag) && newTagName == old(newTagName)
      ensures searchTerm == old(searchTerm) && showMergeModal == old(showMergeModal)
      ensures mergeSource == old(mergeSource) && mergeTarget == old(mergeTarget)
    {
      if !confirmed {
        return;
      }
      var snapshot := store.articles;
      IssueBatchAsWritten(store, selected, now);
      if UniqueArticleIds(snapshot) {
        BatchPlanApplied(snapshot, selected, now);
      }
      selected := [];
    }

    /**
     * `handleBatchDelete`, corrected: when confirmed, every selected tag is
     * removed from every article in one write per article, and the selection
     * is emptied; when not confirmed nothing changes.
     */
    method BatchDelete(store: Store, confirmed: bool, now: Timestamp)
      requires Valid()
      modifies this, store
      ensures Valid()
      ensures !confirmed ==> selected == old(selected) && store.articles == old(store.articles)
      ensures confirmed ==> selected == []
      ensures confirmed ==>
                store.articles == ApplyWrites(old(store.articles), Plan(old(store.articles), RemoveAll(old(selected))), now)
      ensures store.categories == old(store.categories)
      ensures deleteConfirm == old(deleteConfirm) && editingTag == old(editingTag) && newTagName == old(newTagName)
      ensures searchTerm == old(searchTerm) && showMergeModal == old(showMergeModal)
      ensures mergeSource == old(mergeSource) && mergeTarget == old(mergeTarget)
    {
      if !confirmed {
        return;
      }
      ApplyEdit(store, RemoveAll(selected), now);
      selected := [];
    }

    /**
     * `handleMergeTags`: refused (nothing changes) when either name is empty
     * or both are equal; otherwise every article holding the source gets the
     * merge rewrite, and the modal closes with both names cleared.
     */
    method MergeTags(store: Store, now: Timestamp)
      modifies this, store
      ensures old(mergeSource) == [] || old(mergeTarget) == [] || old(mergeSource) == old(mergeTarget) ==>
        && store.articles == old(store.articles)
        && mergeSource == old(mergeSource) && mergeTarget == old(mergeTarget)
        && showMergeModal == old(showMergeModal)
      ensures old(mergeSource) != [] && old(mergeTarget) != [] && old(mergeSource) != old(mergeTarget) ==>
        && store.articles == ApplyWrites(old(store.articles),
                                        Plan(old(store.articles), Merge(old(mergeSource), old(mergeTarget))), now)
        && mergeSource == [] && mergeTarget == [] && !showMergeModal
      ensures store.categories == old(store.categories)
      ensures selected == old(selected) && deleteConfirm == old(deleteConfirm) && searchTerm == old(searchTerm)
      ensures editingTag == old(editingTag) && newTagName == old(newTagName)
    {
      if mergeSource == [] || mergeTarget == [] {
        return;
      }
      if mergeSource == mergeTarget {
        return;
      }
      ApplyEdit(store, Merge(mergeSource, mergeTarget), now);
      showMergeModal := false;
      mergeSource := [];
      mergeTarget := [];
    }

    /** `toggleSelectTag` */
    method ToggleSelectTag(name: string)
      requires Valid()
      modifies this
      ensures Valid()
      ensures selected == Toggled(old(selected), name)
      ensures searchTerm == old(searchTerm) && deleteConfirm == old(deleteConfirm)
      ensures editingTag == old(editingTag) && newTagName == old(newTagName)
      ensures showMergeModal == old(showMergeModal)
      ensures mergeSource == old(mergeSource) && mergeTarget == old(mergeTarget)
    {
      selected := Toggled(selected, name);
    }

    /**
     * `toggleSelectAll`: clears the selection when it is as large as the
     * filtered list, otherwise selects exactly the filtered names.
     */
    method ToggleSelectAll(store: Store)
      requires Valid()
      modifies this
      ensures Valid()
      ensures var filtered := FilteredTags(TagIndex(store.articles), searchTerm);
        && (|old(selected)| == |filtered| ==> selected == [])
        && (|old(selected)| != |filtered| ==> selected == Distinct(TagNames(filtered)) &&
                                              forall t :: t in selected <==> t in TagNames(filtered))
      ensures searchTerm == old(searchTerm) && deleteConfirm == old(deleteConfirm)
      ensures editingTag == old(editingTag) && newTagName == old(newTagName)
      ensures showMergeModal == old(showMergeModal)
      ensures mergeSource == old(mergeSource) && mergeTarget == old(mergeTarget)
    {
      var allTags := store.GetAllTags();
      var filtered := FilteredTags(allTags, searchTerm);
      if |selected| == |filtered| {
        selected := [];
      } else {
        selected := Distinct(TagNames(filtered));
      }
    }
  }
}
