# Blog CMS core in Dafny

This project models the data layer and the admin logic of a small React blog
CMS. The model covers:

- the `useBlogData` store:
  - the category and article lists and their seed data;
  - load and persist against browser storage;
  - create, update and delete for categories and articles;
  - the published-article queries;
  - the tag index `getAllTags`.
- the four admin pages:
  - article management: search, category and status filters, publish toggle,
    two-click delete, batch publish and batch delete, selection;
  - tag management: search, statistics, rename, delete, batch delete, merge,
    selection;
  - category management: tree expansion, the create/edit modal,
    sub-category defaults, guarded two-click delete, article counts,
    delete-button state;
  - the admin article editor: load, validation, tags, automatic excerpt,
    save.
- the stand-alone article editor component.

A record that is a value is a `datatype`: `Category`, `Article`, `Tag`, the
form records, and the partial updates `CategoryPatch` and `ArticlePatch`.

State that the source replaces step by step lives in a `class`:

- `BlogStore.Store` holds the two lists, and `BlogStore.Storage` the two
  storage slots.
- Each page's React state is a page class (`ArticlesPage`, `TagsPage`,
  `CategoriesPage`, `EditorPage`, `ArticleEditor`). Its event handlers are
  methods that modify the page and the store.

Each handler is proved against a specification function, such as:

- `UpdatedArticles`, `CategoriesWithout`, `ArticlesOutside`;
- `TagIndex`, `FilteredTags`, `FilteredArticles`;
- `Plan`/`ApplyWrites` for the tag rewrites;
- `Saved`, `SaveData`.

Lemmas then state what those functions mean. Examples:

- the tag index lists each published tag once, with its multiplicity, and
  its counts add up to the published tag entries;
- a rename, delete or merge rewrites every affected article;
- the filters are permutations of the matching articles, sorted by the key;
- an update touches only the entry with that id.

`getAllTags` is a method with the source's loops. It uses a dictionary and an
insertion-ordered name list, and is proved equal to `TagIndex`.

The modules follow the source:

| module | models |
|---|---|
| `Seqs` | generic filter, descending insertion sort, set toggle |
| `Text` | `trim`, ASCII `toLowerCase`, `includes`, slug, truncation |
| `BlogTypes` | the records and the seed data |
| `TagCounting` | the tag index |
| `BlogStore` | the `useBlogData` hook |
| `TagRewrite` | the bulk tag-list rewrites of the tag page |
| `TagsManagement` | the tag page |
| `ArticlesManagement` | the article list page |
| `CategoriesManagement` | the category page |
| `ArticleForms` | the form record and tag input shared by both editors |
| `ArticleEditorPage` | the admin editor |
| `ArticleEditorComponent` | the stand-alone editor |

Values the browser supplies become parameters of the handlers:

- the clock (`new Date().toISOString()`, as a `Timestamp`);
- fresh ids (`Date.now().toString()`);
- the text extracted from HTML content;
- the answer to a `confirm` dialog (`confirmed`);
- the category hierarchy's verdict `canDeleteCategory(id)` (`canDelete`).

`Category` carries `parentId` and `order`. The declared interface in
`src/types/blog.ts:1-7` does not list these fields, but the category page
reads and writes them, so the model follows that code. The seed categories
carry neither, so every seed category is a main category without an order,
which is why `order` is an `Option<int>`.

## Model

| member | source | states |
|---|---|---|
| Seqs.Filter | src/hooks/useBlogData.ts:175-178 | the result is no longer than the input, and holds exactly the input's elements that pass the test |
| Seqs.FilterSpec | src/hooks/useBlogData.ts:199-201 | filtering keeps the passing elements in their original order, each with its full multiplicity, and drops every failing one |
| Seqs.FilterSnoc | src/hooks/useBlogData.ts:175-178 | filtering a list with one more element appends that element exactly when it passes |
| Seqs.FilterPartition | src/pages/admin/CategoriesManagement.tsx:175-186 | a test and its negation split a list: the two filtered lengths add up to the whole |
| Seqs.FilterAll | src/pages/admin/CategoriesManagement.tsx:175-186 | when every element passes, filtering changes nothing |
| Seqs.FilterNone | src/pages/admin/TagsManagement.tsx:48-57 | when no element passes, the filter is empty |
| Seqs.FilterNoDup | src/pages/admin/TagsManagement.tsx:39-45 | filtering a duplicate-free list keeps it duplicate-free |
| Seqs.InsertDesc | src/pages/admin/TagsManagement.tsx:44 | insertion adds exactly one copy of the element to the list's contents |
| Seqs.InsertDescBounded | src/pages/admin/TagsManagement.tsx:44 | insertion keeps every key under a common bound |
| Seqs.InsertDescSorted | src/pages/admin/TagsManagement.tsx:44 | inserting into a list sorted by descending key keeps it sorted |
| Seqs.SortDesc | src/pages/admin/ArticlesManagement.tsx:63 | sorting is a permutation of its input |
| Seqs.SortDescSorted | src/pages/admin/ArticlesManagement.tsx:63 | the sorted list is in descending order of the key |
| Seqs.SetToggled | src/pages/admin/ArticlesManagement.tsx:137-147 | toggling an element flips whether that element is in the set, and every other element keeps its membership |
| Seqs.SetToggleTwice | src/pages/admin/CategoriesManagement.tsx:58-68 | toggling the same element twice restores the set |
| Text.TrimStart | src/components/ArticleEditor.tsx:47-53 | the result is a suffix of the input that starts with a non-space, and only white space was removed |
| Text.TrimEnd | src/components/ArticleEditor.tsx:47-53 | the result is a prefix of the input that ends with a non-space, and only white space was removed |
| Text.Trim | src/components/ArticleEditor.tsx:41-53 | the trim is the slice left after cutting a blank prefix and a blank suffix; it is '' exactly for an all-space string, and otherwise neither starts nor ends with white space |
| Text.TrimIdempotent | src/components/ArticleEditor.tsx:47-53 | trimming a trimmed string changes nothing |
| Text.TrimFixed | src/components/ArticleEditor.tsx:47-53 | a string with no white space at either end is its own trim |
| Text.ToLower | src/pages/admin/TagsManagement.tsx:42 | lower-casing keeps the length and has white space exactly where the input has it |
| Text.ToLowerIdempotent | src/pages/admin/TagsManagement.tsx:66 | lower-casing a lower-cased name changes nothing |
| Text.ToLowerNoUpper | src/pages/admin/TagsManagement.tsx:42 | a string with no upper-case letter is its own lower-case form |
| Text.ContainsAt | src/pages/admin/ArticlesManagement.tsx:50-52 | `includes` (the function `Text.Contains`) holds exactly when the search string occurs at some position |
| Text.ContainsEmpty | src/pages/admin/ArticlesManagement.tsx:50-52 | the empty search string is found in every text, so an empty search hides nothing |
| Text.DashSpaceRuns | src/hooks/useBlogData.ts:225 | replacing each run of white space with '-' leaves no white space, never lengthens the text, and leaves space-free text as it is |
| Text.TrimStartBlank | src/hooks/useBlogData.ts:225 | a white-space run ends exactly where the first non-space begins |
| Text.DashSpaceRunsAppend | src/hooks/useBlogData.ts:225 | a part that ends in a non-space is dashed independently of what follows it |
| Text.DashSpaceRunsBlank | src/hooks/useBlogData.ts:225 | a non-empty white-space run followed by a non-space becomes a single '-' |
| Text.DashSpaceRunsKeeps | src/hooks/useBlogData.ts:225 | a non-space character is kept, in place |
| Text.DashSpaceRunsRuns | src/hooks/useBlogData.ts:225 | a maximal white-space run between two other parts becomes exactly one '-', and the parts around it keep their characters in order |
| Text.Slug | src/hooks/useBlogData.ts:225 | a tag id contains no white space, is no longer than the name, and is the lower-cased name when the name has no spaces |
| Text.SlugRuns | src/hooks/useBlogData.ts:225 | in a tag id each maximal white-space run of the name becomes one '-', and the parts around it are lower-cased in place |
| Text.Prefix | src/pages/admin/ArticleEditor.tsx:111 | `substring(0, n)` is the first min(n, length) characters |
| Text.Truncate | src/pages/admin/ArticlesManagement.tsx:78-83 | text within the limit is returned unchanged; longer text keeps exactly its first n characters followed by '...' |
| BlogTypes.MergeCategory | src/hooks/useBlogData.ts:169-173 | spreading an empty update over a category leaves it unchanged; an update naming every field replaces it |
| BlogTypes.MergeArticle | src/hooks/useBlogData.ts:191-197 | spreading an empty update over an article leaves it unchanged; an update naming only the tags changes only the tags |
| BlogTypes.DefaultCategories | src/hooks/useBlogData.ts:9-31 | the seed categories: three, with distinct ids, each a main category with no order |
| BlogTypes.DefaultArticles | src/hooks/useBlogData.ts:33-121 | the seed articles: three, with distinct ids, all published, never edited, each filed under a seed category |
| BlogTypes.MergeTwice | src/hooks/useBlogData.ts:169-197 | spreading the same update twice is the same as spreading it once |
| BlogTypes.FindFirst | src/pages/admin/ArticlesManagement.tsx:86-91 | `find` by id returns the first element with the id, or none exactly when no element has it; `FindArticle` and `FindCategory` are this search over articles and over categories |
| TagCounting.Distinct | src/hooks/useBlogData.ts:213-229 | the names in first-appearance order are duplicate-free and are exactly the names that appear |
| TagCounting.PublishedTagEntriesMembers | src/hooks/useBlogData.ts:213-221 | a name is among the published tag entries exactly when some published article lists it, and there are as many entries as published tag slots |
| TagCounting.TagIndex | src/hooks/useBlogData.ts:213-229 | one entry per distinct published tag name, in order of first appearance, with the slug of the name as id |
| TagCounting.TagIndexSpec | src/hooks/useBlogData.ts:213-229 | the index lists every tag of a published article once and no other; each entry's count is its number of uses (at least one), and its id is the slug of its name |
| TagCounting.SumOverEmpty | src/hooks/useBlogData.ts:213-229 | no entries contribute nothing to any count |
| TagCounting.SumOverAdd | src/hooks/useBlogData.ts:213-229 | one more entry raises the counts' sum by one exactly when the name is listed |
| TagCounting.SumOverAll | src/hooks/useBlogData.ts:213-229 | counting entries over a complete name list totals the number of entries |
| TagCounting.SumCountsIsSumOver | src/hooks/useBlogData.ts:222-228 | the sum of the tag counts equals the sum of the multiplicities of their names |
| TagCounting.TagIndexSum | src/hooks/useBlogData.ts:213-229 | the counts of the tag index add up to the number of tag entries over all published articles |
| TagCounting.TagIndexIgnoresDrafts | src/hooks/useBlogData.ts:216-222 | drafts do not affect the tag index |
| TagCounting.PublishedEntriesIgnoreDrafts | src/hooks/useBlogData.ts:216-222 | drafts contribute no tag entries |
| BlogStore.PersistThenLoad | src/hooks/useBlogData.ts:128-157 | after a non-empty list is persisted (`BlogStore.Persisted`), loading (`BlogStore.Loaded`) returns it; an empty list never overwrites storage |
| BlogStore.UpdatedCategories | src/hooks/useBlogData.ts:169-173 | updating keeps the number of categories |
| BlogStore.UpdatedArticles | src/hooks/useBlogData.ts:191-197 | updating keeps the number of articles |
| BlogStore.UpdatedCategoriesSpec | src/hooks/useBlogData.ts:169-173 | the update touches only categories with the id; those take each of the seven fields (id and `createdAt` included) from the update when it names it and keep their own otherwise; an unknown id changes nothing |
| BlogStore.UpdatedArticlesSpec | src/hooks/useBlogData.ts:191-197 | the update touches only articles with the id; those take each of the ten other fields (id, content, excerpt, author and image included) from the update when it names it and keep their own otherwise, and always get the new `updatedAt`; an unknown id changes nothing |
| BlogStore.CategoriesWithout | src/hooks/useBlogData.ts:175-178 | exactly the categories with another id remain, in order |
| BlogStore.ArticlesOutside | src/hooks/useBlogData.ts:175-178 | deleting a category drops exactly the articles filed directly under it and keeps the rest in order |
| BlogStore.ArticlesWithout | src/hooks/useBlogData.ts:199-201 | exactly the articles with another id remain, in order |
| BlogStore.CountMapSpec | src/hooks/useBlogData.ts:214-221 | the count dictionary has a key per name used, holding that name's multiplicity |
| BlogStore.CountStep | src/hooks/useBlogData.ts:218-220 | one more entry bumps or adds its key, and the name list grows exactly when the name is new |
| BlogStore.CountTags | src/hooks/useBlogData.ts:217-221 | counting one tag list extends the dictionary and the name list to include those entries |
| BlogStore.TallyIsIndex | src/hooks/useBlogData.ts:222-228 | the counted names and dictionary yield exactly the tag index |
| BlogStore.PublishedTagEntriesStep | src/hooks/useBlogData.ts:216-221 | each published article contributes its tag list in order; a draft contributes nothing |
| BlogStore.Storage.constructor | src/hooks/useBlogData.ts:128-143 | storage starts with the given slots |
| BlogStore.Store.constructor | src/hooks/useBlogData.ts:123-125 | both lists start empty |
| BlogStore.Store.Load | src/hooks/useBlogData.ts:128-143 | each list comes from its storage slot when present, else from the seed list |
| BlogStore.Store.PersistCategories | src/hooks/useBlogData.ts:145-150 | the category slot is written only with a non-empty list, and the article slot is untouched |
| BlogStore.Store.PersistArticles | src/hooks/useBlogData.ts:152-157 | the article slot is written only with a non-empty list, and the category slot is untouched |
| BlogStore.Store.AddCategory | src/hooks/useBlogData.ts:159-167 | one category is appended, carrying the input, the fresh id and the time; the articles are untouched |
| BlogStore.Store.UpdateCategory | src/hooks/useBlogData.ts:169-173 | the categories become the merged list; the articles are untouched |
| BlogStore.Store.DeleteCategory | src/hooks/useBlogData.ts:175-178 | the category and every article filed directly under it are removed |
| BlogStore.Store.AddArticle | src/hooks/useBlogData.ts:180-189 | one article is appended with the input, the fresh id and both timestamps; the categories are untouched |
| BlogStore.Store.UpdateArticle | src/hooks/useBlogData.ts:191-197 | the articles become the merged list, stamped with the new `updatedAt` |
| BlogStore.Store.DeleteArticle | src/hooks/useBlogData.ts:199-201 | exactly the articles with another id remain |
| BlogStore.Store.PublishedArticles | src/hooks/useBlogData.ts:231-233 | the published articles, in stored order, each with its full multiplicity |
| BlogStore.Store.ArticlesByCategory | src/hooks/useBlogData.ts:203-205 | exactly the published articles of that category, in stored order |
| BlogStore.Store.ArticlesByTag | src/hooks/useBlogData.ts:207-211 | exactly the published articles listing that tag, in stored order |
| BlogStore.Store.GetAllTags | src/hooks/useBlogData.ts:213-229 | the loop over published articles and their tags yields the tag index |
| TagRewrite.RenameTags | src/pages/admin/TagsManagement.tsx:76-78 | renaming keeps the list's length |
| TagRewrite.RenameTagsCons | src/pages/admin/TagsManagement.tsx:76-78 | renaming works element by element from the head |
| TagRewrite.RenameTagsSpec | src/pages/admin/TagsManagement.tsx:76-78 | every old name is replaced by the new one in place and the rest stay; the old name disappears, and the new one gains its count |
| TagRewrite.RemoveTag | src/pages/admin/TagsManagement.tsx:98 | every occurrence of the tag goes; every other tag keeps its order and count |
| TagRewrite.RemoveTagFacts | src/pages/admin/TagsManagement.tsx:98 | removal keeps a duplicate-free list duplicate-free, and removing an absent tag changes nothing |
| TagRewrite.MergeTagListSpec | src/pages/admin/TagsManagement.tsx:143-147 | after a merge (`TagRewrite.MergeTagList`) the source is gone and the target is present; other tags keep their order and counts; the target is appended exactly when it was missing, once in a duplicate-free list |
| TagRewrite.NoDupCountOne | src/pages/admin/TagsManagement.tsx:143-147 | in a duplicate-free list, a present element occurs once |
| TagRewrite.RemoveTags | src/pages/admin/TagsManagement.tsx:112-127 | the intended batch removal drops every selected tag and keeps the other tags with their order and counts |
| TagRewrite.Plan | src/pages/admin/TagsManagement.tsx:74-82 | the handler issues at most one write per snapshot article |
| TagRewrite.PlanWrites | src/pages/admin/TagsManagement.tsx:74-82 | the handler issues a write for every affected snapshot article, carrying the list computed from the snapshot, and no other write |
| TagRewrite.ApplyWrites | src/pages/admin/TagsManagement.tsx:74-82 | applying writes keeps the number of articles |
| TagRewrite.RewriteAll | src/pages/admin/TagsManagement.tsx:74-82 | rewriting keeps the number of articles |
| TagRewrite.PlanStep | src/pages/admin/TagsManagement.tsx:74-82 | the handler's writes for a longer snapshot extend those for its prefix by that article's write when it is affected |
| TagRewrite.ApplyWritesSnoc | src/pages/admin/TagsManagement.tsx:74-82 | one more write is applied to the state the previous writes left |
| TagRewrite.ApplyWritesAppend | src/pages/admin/TagsManagement.tsx:117-124 | issuing two lists of writes one after the other is issuing their concatenation |
| TagRewrite.RewriteStep | src/pages/admin/TagsManagement.tsx:74-82 | with unique snapshot ids, writing one snapshot article's new tags into a list with the same ids changes exactly that position |
| TagRewrite.PlanPrefixApplied | src/pages/admin/TagsManagement.tsx:74-82 | with unique snapshot ids, the writes for the first i snapshot articles, applied to any list with the same ids, give exactly those affected positions the tag list computed from the snapshot |
| TagRewrite.PlanApplied | src/pages/admin/TagsManagement.tsx:74-82 | with unique ids, the sequence of per-article `updateArticle` calls rewrites every affected article in place and leaves the others alone |
| TagRewrite.RenameApplied | src/pages/admin/TagsManagement.tsx:60-85 | after a rename no article holds the old name; each occurrence holds the new name in its place; unaffected articles are unchanged |
| TagRewrite.RemoveApplied | src/pages/admin/TagsManagement.tsx:88-109 | after a delete no article holds the tag, and articles without it are unchanged |
| TagRewrite.MergeApplied | src/pages/admin/TagsManagement.tsx:130-155 | after a merge no article holds the source, each article that held it holds the target, and the others are unchanged |
| TagRewrite.BatchPlanAsWritten | src/pages/admin/TagsManagement.tsx:112-127 | every write of the batch delete as written removes exactly one selected tag, held by that article, from its snapshot tag list |
| TagRewrite.LastHeld | src/pages/admin/TagsManagement.tsx:117-124 | finds the held selected tag that no later held selected tag follows, or none when the list holds no selected tag |
| TagRewrite.BatchOutcomeStep | src/pages/admin/TagsManagement.tsx:117-124 | one more selected tag, when held, replaces the article's tag list by the snapshot list without that tag |
| TagRewrite.BatchPlanApplied | src/pages/admin/TagsManagement.tsx:112-127 | with unique ids, after the batch delete as written each article is as `BatchOutcomeAsWritten` describes |
| TagRewrite.BatchDeleteAsWritten | src/pages/admin/TagsManagement.tsx:112-127 | with unique ids, the batch delete as written leaves an article holding no selected tag untouched, and removes from any other article only the held selected tag that comes last in the selection; every other selected tag it held survives |
| TagRewrite.BatchDeleteKeepsSelectedTag | src/pages/admin/TagsManagement.tsx:112-127 | as written, deleting the selected tags a and b from an article tagged [a, b] leaves it tagged [a] |
| TagRewrite.SampleBatchPlan | src/pages/admin/TagsManagement.tsx:112-127 | the batch delete as written issues the write [b] and then the write [a] for that article |
| TagRewrite.SamplePlans | src/pages/admin/TagsManagement.tsx:88-109 | a single-tag delete of a or of b issues one write with the other tag |
| TagRewrite.BatchDeleteApplied | src/pages/admin/TagsManagement.tsx:112-127 | the corrected batch delete leaves no selected tag on any article and leaves articles without one unchanged |
| TagsManagement.FilteredTags | src/pages/admin/TagsManagement.tsx:39-45 | the listed tags are exactly those whose name contains the search term (ignoring case), in descending order of count |
| TagsManagement.EmptySearchKeepsAll | src/pages/admin/TagsManagement.tsx:39-45 | an empty search lists every tag |
| TagsManagement.MaxByCountSpec | src/pages/admin/TagsManagement.tsx:51-53 | the reduction `TagsManagement.MaxByCount` returns a tag of maximal count, and the earliest one on a tie |
| TagsManagement.MostUsed | src/pages/admin/TagsManagement.tsx:51-53 | the most used tag is the first of maximal count, or the placeholder when there are no tags |
| TagsManagement.FoldFindsFirstMax | src/pages/admin/TagsManagement.tsx:51-53 | the reduction started at the first tag lands on the first tag of maximal count |
| TagsManagement.Stats | src/pages/admin/TagsManagement.tsx:48-57 | the statistics count the tags; the usages are the sum of all counts; the most used tag is the first tag of maximal count (the placeholder when there are no tags); the unused tags are exactly the number of positions holding a tag of count zero, so none when every tag is used |
| TagsManagement.UnusedCount | src/pages/admin/TagsManagement.tsx:55 | keeping the tags of count zero keeps exactly one entry per zero-count position |
| TagsManagement.StatsOfIndex | src/pages/admin/TagsManagement.tsx:48-57 | over the tag index, there are as many tags as distinct published names, usages total the published tag entries, and no tag is unused |
| TagsManagement.TagArticles | src/pages/admin/TagsManagement.tsx:179-181 | exactly the articles listing the tag, drafts included, in order |
| TagsManagement.RenameCheck | src/pages/admin/TagsManagement.tsx:60-72 | a blank or unchanged (trimmed) name cancels; otherwise the rename is refused exactly when the trimmed name equals an existing tag name ignoring case (`TagsManagement.NameTaken`), and goes ahead with the trimmed name when it does not |
| TagsManagement.RenameCheckSpec | src/pages/admin/TagsManagement.tsx:60-72 | an accepted name is non-empty, new, and clashes with no tag ignoring case; a case-only rename of an existing tag is refused as taken |
| TagsManagement.IssueWrites | src/pages/admin/TagsManagement.tsx:74-82 | the loop over a snapshot issues the edit's writes in order, and the store ends as those writes leave it |
| TagsManagement.ApplyEdit | src/pages/admin/TagsManagement.tsx:74-82 | a single-edit handler's writes are computed from the list it starts from |
| TagsManagement.IssueBatchAsWritten | src/pages/admin/TagsManagement.tsx:117-124 | the nested loop issues, tag by tag, the single-tag delete writes computed from the list before the first write |
| TagsManagement.Toggled | src/pages/admin/TagsManagement.tsx:158-168 | toggling flips the name's membership, keeps every other name's, and keeps the selection duplicate-free |
| TagsManagement.ToggleTwice | src/pages/admin/TagsManagement.tsx:158-168 | toggling twice restores the membership, and restores the list exactly for a name not selected before |
| TagsManagement.TagsPage.constructor | src/pages/admin/TagsManagement.tsx:27-34 | the page starts with an empty search, selection, confirmation, rename and merge state |
| TagsManagement.TagsPage.RenameTag | src/pages/admin/TagsManagement.tsx:60-85 | a rename that passes the checks rewrites every article holding the old name; a refused rename changes no article; editing closes unless the name was taken |
| TagsManagement.TagsPage.FinishRename | src/pages/admin/TagsManagement.tsx:60-84 | once the checks have decided: a cancelled rename closes the editor and writes nothing; a taken name writes nothing and leaves the editor open; an accepted name rewrites every article holding the old name and closes the editor |
| TagsManagement.TagsPage.DeleteTag | src/pages/admin/TagsManagement.tsx:88-109 | the first click arms the confirmation; the second removes the tag from every article and from the selection |
| TagsManagement.TagsPage.BatchDeleteAsWritten | src/pages/admin/TagsManagement.tsx:112-127 | when confirmed, the store ends as the as-written batch writes leave it (with unique ids, each article becomes its `BatchOutcomeAsWritten`) and the selection is cleared; otherwise nothing changes |
| TagsManagement.TagsPage.BatchDelete | src/pages/admin/TagsManagement.tsx:112-127 | when confirmed, every selected tag leaves every article and the selection is cleared; otherwise nothing changes |
| TagsManagement.TagsPage.MergeTags | src/pages/admin/TagsManagement.tsx:130-155 | with two distinct non-empty names, the source is merged into the target on every article and the modal closes; otherwise nothing changes |
| TagsManagement.TagsPage.ToggleSelectTag | src/pages/admin/TagsManagement.tsx:158-168 | the tag's selection is toggled and the selection stays duplicate-free |
| TagsManagement.TagsPage.ToggleSelectAll | src/pages/admin/TagsManagement.tsx:171-177 | the selection is cleared when it is as large as the filtered list, otherwise it becomes exactly the filtered names |
| ArticlesManagement.FilteredArticles | src/pages/admin/ArticlesManagement.tsx:47-64 | exactly the articles that pass the search, category and status filters (`ArticlesManagement.Listed`, with the search test `ArticlesManagement.MatchesSearch`), newest update first |
| ArticlesManagement.NoFilterListsAll | src/pages/admin/ArticlesManagement.tsx:47-64 | with no search, category or status filter every article is listed |
| ArticlesManagement.ListedSplit | src/pages/admin/ArticlesManagement.tsx:55-58 | an article passes 'all' exactly when it passes one of 'published' and 'draft', and never both |
| ArticlesManagement.StatusFiltersPartition | src/pages/admin/ArticlesManagement.tsx:47-64 | the published and draft lists together are as long as the unfiltered-status list |
| ArticlesManagement.PublishedAs | src/pages/admin/ArticlesManagement.tsx:111-116 | batch publishing keeps the number of articles |
| ArticlesManagement.PublishedAsStep | src/pages/admin/ArticlesManagement.tsx:111-116 | one more `updateArticle(id, { published })` adds that id to the published set |
| ArticlesManagement.PublishedAsSpec | src/pages/admin/ArticlesManagement.tsx:111-116 | exactly the selected articles get the status and a fresh `updatedAt`; ids and tags stay; the rest are untouched; repeating it changes nothing |
| ArticlesManagement.WithoutIds | src/pages/admin/ArticlesManagement.tsx:118-125 | exactly the articles with an unselected id remain, in order |
| ArticlesManagement.WithoutNoIds | src/pages/admin/ArticlesManagement.tsx:118-125 | deleting no ids keeps every article |
| ArticlesManagement.WithoutIdsStep | src/pages/admin/ArticlesManagement.tsx:118-125 | one more `deleteArticle` adds its id to the removed set |
| ArticlesManagement.TogglePublishStatus | src/pages/admin/ArticlesManagement.tsx:86-91 | a known article gets its negated status written through the store; an unknown id changes nothing |
| ArticlesManagement.TogglePublishFlipsOne | src/pages/admin/ArticlesManagement.tsx:86-91 | with unique ids, exactly one article's status flips and it is stamped; the others are untouched |
| ArticlesManagement.ArticlesPage.constructor | src/pages/admin/ArticlesManagement.tsx:36-40 | the page starts with no search, filters, selection or confirmation |
| ArticlesManagement.ArticlesPage.HandleDelete | src/pages/admin/ArticlesManagement.tsx:94-108 | the first click arms the id; the second deletes the article, disarms, and deselects it |
| ArticlesManagement.ArticlesPage.BatchPublish | src/pages/admin/ArticlesManagement.tsx:111-116 | every selected article gets the status and the selection is cleared |
| ArticlesManagement.ArticlesPage.BatchDelete | src/pages/admin/ArticlesManagement.tsx:118-125 | when confirmed, exactly the selected articles are deleted and the selection is cleared; otherwise nothing changes |
| ArticlesManagement.ArticlesPage.ToggleSelectAll | src/pages/admin/ArticlesManagement.tsx:128-134 | the selection is cleared when it is as large as the shown list, otherwise it becomes the shown ids |
| ArticlesManagement.ArticlesPage.ToggleSelectArticle | src/pages/admin/ArticlesManagement.tsx:137-147 | the article's selection is toggled |
| CategoriesManagement.Children | src/pages/admin/CategoriesManagement.tsx:94 | exactly the categories whose parent is the given id, in order |
| CategoriesManagement.ChildrenEmpty | src/pages/admin/CategoriesManagement.tsx:170-173 | the child list is empty exactly when no category has that parent |
| CategoriesManagement.SubForm | src/pages/admin/CategoriesManagement.tsx:91-106 | a new sub-category form is blank under the parent; it takes the parent's colour (or the default when none) and the order one past the existing children |
| CategoriesManagement.SubOrderIsPosition | src/pages/admin/CategoriesManagement.tsx:91-106 | the proposed order is the 1-based position the new child takes once appended |
| CategoriesManagement.EditForm | src/pages/admin/CategoriesManagement.tsx:109-120 | the edit form shows the category's fields, with an empty parent exactly for a main category |
| CategoriesManagement.EditPatch | src/pages/admin/CategoriesManagement.tsx:127-133 | an edit updates only name, description, colour and order |
| CategoriesManagement.CreateInput | src/pages/admin/CategoriesManagement.tsx:135-141 | creation copies the form and turns an empty parent into no parent |
| CategoriesManagement.EditKeepsHierarchy | src/pages/admin/CategoriesManagement.tsx:123-149 | submitting an edit keeps every id, parent and creation time; it changes the edited category's texts and order and no other category |
| CategoriesManagement.EditFormRoundTrip | src/pages/admin/CategoriesManagement.tsx:109-149 | creating from a category's edit form reproduces its input, except that a parent id of '' reads as no parent |
| CategoriesManagement.ArticleCount | src/pages/admin/CategoriesManagement.tsx:204-206 | the count is at most the number of articles, and is zero exactly when no article is filed under the category |
| CategoriesManagement.ArticleCountSnoc | src/pages/admin/CategoriesManagement.tsx:204-206 | one more article adds one to its own category's count and to no other |
| CategoriesManagement.ArticleCountCascade | src/pages/admin/CategoriesManagement.tsx:177-196 | the cascade removes exactly as many articles as the count shows and leaves none in the category |
| CategoriesManagement.CountId | src/pages/admin/CategoriesManagement.tsx:209-212 | an article counts for a sub-category list exactly when its category is one of them |
| CategoriesManagement.SumCounts | src/pages/admin/CategoriesManagement.tsx:209-212 | the summed count is zero exactly when no article is filed under any of the sub-categories, and is at least each one's count |
| CategoriesManagement.TotalArticleCount | src/pages/admin/CategoriesManagement.tsx:209-212 | a main category's total is zero exactly when no article is filed under one of its direct children |
| CategoriesManagement.SumCountsSnoc | src/pages/admin/CategoriesManagement.tsx:209-212 | one more article raises the summed sub-category counts by its number of matching sub-categories |
| CategoriesManagement.TotalArticleCountSnoc | src/pages/admin/CategoriesManagement.tsx:209-212 | one more article raises the main category's total exactly when it is filed under one of its sub-categories |
| CategoriesManagement.TotalExcludesOwnArticles | src/pages/admin/CategoriesManagement.tsx:209-212 | articles filed directly under the main category are not part of its total |
| CategoriesManagement.IsMainId | src/pages/admin/CategoriesManagement.tsx:166-167 | the id names a main category exactly when the first category with that id exists and has no parent |
| CategoriesManagement.DeleteBlocked | src/pages/admin/CategoriesManagement.tsx:163-186 | a second click is refused exactly when the hierarchy forbids it and the category is a main one with a child, or another one with an article |
| CategoriesManagement.GuardedDeleteChecksOneBlocker | src/pages/admin/CategoriesManagement.tsx:163-186 | when the hierarchy forbids the delete but the guard lets it through, only one blocker has been ruled out: a main category has no child, any other category has no article |
| CategoriesManagement.GuardLetsThrough | src/pages/admin/CategoriesManagement.tsx:163-190 | a delete that nothing permits but the guard lets through either takes a childless main category's own articles along, or leaves an article-free category's children pointing at a parent that is gone |
| CategoriesManagement.MainDeletedWithItsArticle | src/pages/admin/CategoriesManagement.tsx:163-190 | a main category with no child and one article is not deletable, yet the guard lets the second click through and the cascade takes the article |
| CategoriesManagement.SubDeletedOrphaningChild | src/pages/admin/CategoriesManagement.tsx:163-190 | a sub-category with a child and no article is not deletable, yet the guard lets the second click through and the child keeps a parent id that no category has |
| CategoriesManagement.DeleteRefusedSpec | src/pages/admin/CategoriesManagement.tsx:163-190 | the fail-closed guard refuses everything the written one refuses, refuses exactly when the verdict is negative if the verdict follows the documented rule, and a delete it lets through orphans no child and takes no article |
| CategoriesManagement.DeleteButton | src/pages/admin/CategoriesManagement.tsx:215-242 | the button is disabled exactly when the hierarchy forbids the delete, and says 'click again' exactly while armed for that id |
| CategoriesManagement.ButtonAgreesWithGuard | src/pages/admin/CategoriesManagement.tsx:215-242 | the button announces a positive number of blocking children or articles exactly when a confirmed click would be refused |
| CategoriesManagement.CategoriesPage.constructor | src/pages/admin/CategoriesManagement.tsx:39-53 | the page starts collapsed, with the modal closed and the empty form |
| CategoriesManagement.CategoriesPage.ToggleExpanded | src/pages/admin/CategoriesManagement.tsx:58-68 | the category's expansion is toggled and nothing else changes |
| CategoriesManagement.CategoriesPage.ResetForm | src/pages/admin/CategoriesManagement.tsx:71-81 | the form, the edited category and the chosen parent are cleared |
| CategoriesManagement.CategoriesPage.OpenCreateMain | src/pages/admin/CategoriesManagement.tsx:84-88 | the modal opens in create-main mode on the empty form |
| CategoriesManagement.CategoriesPage.OpenCreateSub | src/pages/admin/CategoriesManagement.tsx:91-106 | the modal opens in create-sub mode on the parent's sub-category form |
| CategoriesManagement.CategoriesPage.OpenEdit | src/pages/admin/CategoriesManagement.tsx:109-120 | the modal opens in edit mode on the category's form |
| CategoriesManagement.CategoriesPage.HandleSubmit | src/pages/admin/CategoriesManagement.tsx:123-149 | an edit updates the edited category, otherwise a new category is appended from the form; the modal then closes and the form resets |
| CategoriesManagement.CategoriesPage.HandleDelete | src/pages/admin/CategoriesManagement.tsx:152-201 | the first click arms the id; the second is refused by the guard, or deletes the category with its articles; the confirmation is cleared either way |
| CategoriesManagement.CategoriesPage.HandleDeleteFailClosed | src/pages/admin/CategoriesManagement.tsx:152-201 | with the guard failing closed, a second click deletes only a category nothing blocks, takes no article along and leaves no category pointing at it; otherwise nothing but the confirmation changes |
| ArticleForms.MissingTrim | src/pages/admin/ArticleEditor.tsx:85-99 | a field is missing exactly when its trim is empty |
| ArticleForms.TrimmedField | src/components/ArticleEditor.tsx:41-53 | a trimmed field stays trimmed, and is missing exactly when the original was |
| ArticleForms.WithTag | src/pages/admin/ArticleEditor.tsx:117-126 | a new, non-blank trimmed tag is appended, otherwise the list stays; the list stays duplicate-free |
| ArticleForms.WithTagThenRemove | src/pages/admin/ArticleEditor.tsx:117-134 | removing a tag just added restores the list |
| ArticleForms.WithTagIdempotent | src/components/ArticleEditor.tsx:25-34 | adding the same input twice adds it once |
| ArticleEditorPage.LoadForm | src/pages/admin/ArticleEditor.tsx:59-72 | the form shows the article's fields, with '' for a missing image |
| ArticleEditorPage.FormErrors | src/pages/admin/ArticleEditor.tsx:82-103 | one error per blank title, content or author and per missing category, and no other |
| ArticleEditorPage.FormValidSpec | src/pages/admin/ArticleEditor.tsx:82-103 | the form is valid exactly when title, content and author are not blank and a category is chosen |
| ArticleEditorPage.SaveExcerpt | src/pages/admin/ArticleEditor.tsx:183-188 | the saved excerpt is the trimmed one when given, else the truncated text |
| ArticleEditorPage.SaveData | src/pages/admin/ArticleEditor.tsx:179-189 | the saved data carries the untrimmed fields, the image URL even when '', and the chosen publication state |
| ArticleEditorPage.SavePatch | src/pages/admin/ArticleEditor.tsx:191-192 | as an update, the data replaces every field of an article except its id and timestamps |
| ArticleEditorPage.LoadSaveRoundTrip | src/pages/admin/ArticleEditor.tsx:59-72 | loading an article with an image and a trimmed excerpt, then saving it with its own status, changes nothing |
| ArticleEditorPage.EditorPage.constructor | src/pages/admin/ArticleEditor.tsx:40-72 | the page starts on the article's form, or on a blank form by 'Admin' |
| ArticleEditorPage.EditorPage.ValidateForm | src/pages/admin/ArticleEditor.tsx:82-103 | the errors become those of the form, and the result says whether there are none |
| ArticleEditorPage.EditorPage.AddTag | src/pages/admin/ArticleEditor.tsx:117-126 | the tag input joins the list and is cleared, or nothing changes |
| ArticleEditorPage.EditorPage.RemoveTag | src/pages/admin/ArticleEditor.tsx:129-134 | every occurrence of the tag leaves the form's list |
| ArticleEditorPage.EditorPage.GenerateExcerpt | src/pages/admin/ArticleEditor.tsx:106-114 | with content, the excerpt becomes the truncated text; without, nothing changes |
| ArticleEditorPage.EditorPage.HandleSave | src/pages/admin/ArticleEditor.tsx:173-203 | an invalid form saves nothing; a valid one updates the edited article or adds a new one, when that callback exists |
| ArticleEditorComponent.InitialCategory | src/components/ArticleEditor.tsx:17 | the category is the article's, else the first category's, and '' only when neither exists |
| ArticleEditorComponent.InitialForm | src/components/ArticleEditor.tsx:14-22 | the form starts on the article's fields, or empty |
| ArticleEditorComponent.Saved | src/components/ArticleEditor.tsx:40-56 | nothing is saved when the title or content is blank or no category is chosen; otherwise the fields are trimmed and a blank author becomes 'Anonymous' |
| ArticleEditorComponent.SavedIdempotent | src/components/ArticleEditor.tsx:40-56 | saving what a save produced produces the same, and the saved author is never empty |
| ArticleEditorComponent.AnonymousTrimmed | src/components/ArticleEditor.tsx:52 | the default author is not blank and is its own trim |
| ArticleEditorComponent.Excerpt | src/components/ArticleEditor.tsx:58-66 | the excerpt is at most 153 characters; it is the trimmed text when short; a long text gives the trim of its first 150 characters followed by '...' |
| ArticleEditorComponent.ExcerptSlice | src/components/ArticleEditor.tsx:58-66 | the part of a long excerpt before '...' is a slice of the first 150 characters, cut only at white space |
| ArticleEditorComponent.ExcerptAgreesWithTruncate | src/components/ArticleEditor.tsx:58-66 | the component's excerpt equals the admin editor's when the kept text has no white space at either end |
| ArticleEditorComponent.ArticleEditor.constructor | src/components/ArticleEditor.tsx:14-22 | the component starts on its initial form with an empty tag input |
| ArticleEditorComponent.ArticleEditor.HandleAddTag | src/components/ArticleEditor.tsx:25-34 | Enter or ',' adds the input when it may and clears it; any other key changes nothing |
| ArticleEditorComponent.ArticleEditor.RemoveTag | src/components/ArticleEditor.tsx:36-38 | every occurrence of the tag leaves the list |
| ArticleEditorComponent.ArticleEditor.GenerateExcerpt | src/components/ArticleEditor.tsx:58-66 | with content, the excerpt becomes the component's excerpt of the text; without, nothing changes |

## Left out

- The JSON encoding in `localStorage` is not modelled: storage slots hold parsed lists, and a parse failure is not modelled.
- Clock readings and `Date.now()` ids are parameters. A handler that reads the clock several times is given one reading per call.
- BlogStore.Store.AddArticle: takes `createdAt` and `updatedAt` separately, because the source reads the clock twice.
- BlogStore.Store.Load: takes the seed lists as parameters; the hook passes `DefaultCategories()` and `DefaultArticles()`.
- The seed articles' HTML bodies are abbreviated to short strings, because no property depends on their text.
- The category hierarchy functions `canDeleteCategory`, `getSubCategories` and `getCategoryTree` are not part of this model. The delete guard and the button take the hierarchy's verdict as the boolean `canDelete`.
- `window.confirm` and `alert` become a boolean `confirmed` input, or are left out where they only inform.
- The timer that disarms a delete confirmation after three seconds (tags, articles) or five seconds (categories) is not modelled; the confirmation stays armed until the next click.
- Text.ToLower: folds only ASCII letters, because the full Unicode case mapping of `toLowerCase` is out of scope.
- Text.Prefix: counts characters as Unicode scalar values, while JavaScript's `length` and `substring` count UTF-16 code units. For text outside the Basic Multilingual Plane, `Prefix`, `Truncate`, `ArticleEditorComponent.Excerpt` and `ArticleEditorPage.SaveExcerpt` therefore keep more text than the source does, and the source's cut can split a surrogate pair, which the model cannot express.
- TagCounting.TagIndex: lists names in order of first appearance. `Object.entries` (src/hooks/useBlogData.ts:224) lists integer-like names such as "2024" first, in ascending numeric order. That order decides `TagsManagement.MostUsed` on ties and the order of equal counts in `TagsManagement.FilteredTags`; `BlogStore.Store.GetAllTags` shares the model's order.
- TagCounting.TagIndex: treats every name as a fresh dictionary key. In the source, `tagCounts[tag] || 0` (src/hooks/useBlogData.ts:219) reads inherited properties of a plain object: a tag named `__proto__` is never counted, and tags such as `constructor` or `toString` get a string-concatenated count. `BlogStore.Store.GetAllTags` does not model this either.
- Text.IsSpace: recognises the common white-space characters, not every Unicode white-space code point that `trim` and `\s` accept.
- The text that the browser extracts from HTML content (`textContent`) is a parameter of the excerpt operations.
- Seqs.SortDesc: stability is not stated. Dates are compared as integer timestamps rather than parsed from ISO strings.
- TagsManagement.TagsPage.BatchDelete: models the intended batch delete (see Findings); the source's behaviour is `TagsManagement.TagsPage.BatchDeleteAsWritten`, characterised by `TagRewrite.BatchDeleteAsWritten`.
- TagRewrite.BatchDeleteAsWritten: assumes unique article ids, like the other rewrite lemmas; with a duplicated id, a write also lands on the other article with that id.
- CategoriesManagement.CategoriesPage.HandleDelete: models the guard as written (see Findings); the fail-closed guard is `CategoriesManagement.CategoriesPage.HandleDeleteFailClosed`.
- TagsManagement.Toggled: the tag selection is an insertion-ordered, duplicate-free list standing in for a JavaScript `Set`.
- ArticleEditorPage.EditorPage: whether the optional `addArticle`/`updateArticle` callbacks were given is fixed at construction (`hasAdd`, `hasUpdate`).
- The editor's `isDirty`, image upload (FileReader), preview, navigation and loading flags are UI state with no effect on the data, and are left out.
- The `try`/`catch` around saves is left out, because nothing in the model throws.
- The order in which JavaScript spreads object keys is not modelled. Updates are field-by-field merges.
- Rendering, routing, the public pages and the legacy components `CategoryManager`, `TagManager` and `TaggedArticles` are not part of this model.

## Findings

| source | as written | input that shows it | evidently intended | confidence | as-written member | corrected member |
|---|---|---|---|---|---|---|
| src/pages/admin/TagsManagement.tsx:112-127 | for each selected tag, the batch delete runs the single-tag delete's removal loop inline; every write's tag list is computed from the same pre-operation snapshot, so a later write to an article overwrites an earlier write to that article | one article tagged `["a", "b"]` with the selection `["a", "b"]`: the writes are `["b"]` and then `["a"]`, so the article ends tagged `["a"]` | every selected tag is removed from every article | not executed | TagRewrite.BatchDeleteAsWritten | TagRewrite.BatchDeleteApplied |
| src/pages/admin/CategoriesManagement.tsx:165-190 | when `canDeleteCategory` is false, the guard refuses only a main category with sub-categories or another category with articles; any other case falls through to `deleteCategory`, which cascades to the category's articles | main category `1` with no sub-category and one article filed under `1`: the second click deletes the category and the cascade deletes the article. Sub-category `11` with child `111` and no article: it is deleted and `111` keeps the parent id `11` | a negative `canDeleteCategory` refuses the delete | not executed; the delete button is disabled whenever `canDeleteCategory` is false, so only a click that bypasses the disabled button reaches this path | CategoriesManagement.GuardLetsThrough | CategoriesManagement.CategoriesPage.HandleDeleteFailClosed |
