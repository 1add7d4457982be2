/** The scrape-configuration screen (app/private/scrape/page.tsx): deriving each list's
    category and item count from the joined query, exporting the configuration
    records, and importing scraped items grouped by list, with delete-then-insert per
    list and a success/error tally. Database replies are parameters. */
module ScrapeConfig {
  import opened Wrappers
  import opened Seqs
  import Text

  datatype CategoryRef = CategoryRef(id: string, name: string)

  /** The `categories(id, name)` join as it may come back: null, an object, or an array. */
  datatype CategoryJoin = NoCategory | OneCategory(category: CategoryRef) | CategoryArray(all: seq<CategoryRef>)

  /** A row of the lists query; `hasItems` holds the counts of `list_items(count)`, or is
      missing. */
  datatype RawList = RawList(id: string, title: string, sourceUrl: string, categories: CategoryJoin, hasItems: Option<seq<int>>)

  /** A list as the page keeps it after formatting. */
  datatype ScrapeList = ScrapeList(id: string, title: string, sourceUrl: string, category: Option<string>, itemCount: int)

  /** `list.has_items?.[0]?.count || 0`. */
  function ItemCount(hasItems: Option<seq<int>>): (n: int)
    ensures hasItems.None? || |hasItems.value| == 0 ==> n == 0
    ensures hasItems.Some? && |hasItems.value| > 0 ==> n == hasItems.value[0]
  {
    match hasItems
    case None => 0
    case Some(counts) => if |counts| == 0 then 0 else counts[0]
  }

  /** The name of the joined category: the object's, or the first array element's. */
  function CategoryName(j: CategoryJoin): (r: Option<string>)
    ensures r.Some? <==> j.OneCategory? || (j.CategoryArray? && |j.all| > 0)
    ensures j.OneCategory? ==> r == Some(j.category.name)
    ensures j.CategoryArray? && |j.all| > 0 ==> r == Some(j.all[0].name)
  {
    match j
    case NoCategory => None
    case OneCategory(c) => Some(c.name)
    case CategoryArray(cs) => if |cs| == 0 then None else Some(cs[0].name)
  }

  /** The formatting in `fetchLists`. */
  function FormatList(raw: RawList): ScrapeList {
    ScrapeList(raw.id, raw.title, raw.sourceUrl, CategoryName(raw.categories), ItemCount(raw.hasItems))
  }

  /** One exported configuration record. */
  datatype ConfigItem = ConfigItem(id: string, title: string, sourceUrl: string, category: string, hasItems: bool)

  /** `exportScrapeConfig`: one record per list, in order; a missing category exports as
      the empty string and `has_items` says whether the item count is positive. */
  function ExportConfig(lists: seq<ScrapeList>): (r: seq<ConfigItem>)
    ensures |r| == |lists|
    ensures forall i :: 0 <= i < |lists| ==>
      && r[i].id == lists[i].id && r[i].title == lists[i].title && r[i].sourceUrl == lists[i].sourceUrl
      && r[i].category == lists[i].category.GetOr("")
      && (r[i].hasItems <==> lists[i].itemCount > 0)
  {
    seq(|lists|, i requires 0 <= i < |lists| =>
      var l := lists[i];
      ConfigItem(l.id, l.title, l.sourceUrl, l.category.GetOr(""), l.itemCount > 0))
  }

  /** Exporting what the query returned marks a list as having items exactly when the
      first count of its `list_items(count)` join is positive. Every list is exported,
      not only those lacking items. */
  lemma ExportHasItemsIffPositiveCount(raws: seq<RawList>, i: int)
    requires 0 <= i < |raws|
    ensures var r := ExportConfig(seq(|raws|, k requires 0 <= k < |raws| => FormatList(raws[k])));
      |r| == |raws| && (r[i].hasItems <==> raws[i].hasItems.Some? && |raws[i].hasItems.value| > 0 && raws[i].hasItems.value[0] > 0)
  {
  }

  // ----- import -----

  /** An imported item; it is inserted exactly as read. */
  datatype ImportItem = ImportItem(listId: string, rank: int, name: string, details: Option<string>)

  /** What the chosen file turns out to hold. */
  datatype ImportFile = EmptyFile | Unparseable | NotAnArray | Items(items: seq<ImportItem>)

  function ListIds(items: seq<ImportItem>): (r: seq<string>)
    ensures |r| == |items| && forall i :: 0 <= i < |items| ==> r[i] == items[i].listId
  {
    seq(|items|, i requires 0 <= i < |items| => items[i].listId)
  }

  function HasListId(listId: string): ImportItem -> bool {
    (it: ImportItem) => it.listId == listId
  }

  /** The `listGroups` record: the items of each list id, and the order in which the ids
      were first met (the order `Object.entries` visits them). */
  datatype Grouping = Grouping(order: seq<string>, groups: map<string, seq<ImportItem>>)

  /** One step of the `forEach`: push the item onto its list's group, creating the group
      when the list has none yet. */
  function AddItem(g: Grouping, x: ImportItem): Grouping {
    if x.listId in g.groups then Grouping(g.order, g.groups[x.listId := g.groups[x.listId] + [x]])
    else Grouping(g.order + [x.listId], g.groups[x.listId := [x]])
  }

  /** The grouping the `forEach` builds over the file's items. */
  function GroupByList(items: seq<ImportItem>): Grouping
    decreases |items|
  {
    if |items| == 0 then Grouping([], map[])
    else AddItem(GroupByList(items[..|items| - 1]), items[|items| - 1])
  }

  /** Each list id is met once in the order, and the order and the groups name the same
      lists. */
  ghost predicate OrderMatchesGroups(g: Grouping) {
    Distinct(g.order) && forall k :: k in g.order <==> k in g.groups
  }

  /** Each group holds exactly its list's items, in file order, and is not empty. */
  ghost predicate GroupsAreFilters(g: Grouping, items: seq<ImportItem>) {
    forall k :: k in g.groups ==> |g.groups[k]| > 0 && g.groups[k] == Filter(items, HasListId(k))
  }

  /** Every item's list has a group. */
  ghost predicate CoversItems(g: Grouping, items: seq<ImportItem>) {
    forall j :: 0 <= j < |items| ==> items[j].listId in g.groups
  }

  /** `g` partitions `items` by list. */
  ghost predicate Partitions(g: Grouping, items: seq<ImportItem>) {
    OrderMatchesGroups(g) && GroupsAreFilters(g, items) && CoversItems(g, items)
  }

  /** Adding an item to the group of `k`, or leaving that group alone, keeps it equal to
      the items of list `k` in file order. */
  lemma AddItemGroupFilter(g: Grouping, init: seq<ImportItem>, x: ImportItem, k: string)
    requires GroupsAreFilters(g, init) && CoversItems(g, init)
    requires k in AddItem(g, x).groups
    ensures |AddItem(g, x).groups[k]| > 0 && AddItem(g, x).groups[k] == Filter(init + [x], HasListId(k))
  {
    FilterAppend(init, [x], HasListId(k));
    assert Filter([x], HasListId(k)) == if x.listId == k then [x] else [];
    if k == x.listId && x.listId !in g.groups {
      FilterNone(init, HasListId(k));
    }
  }

  /** Adding the last item keeps each group equal to its list's items in file order. */
  lemma AddItemGroupsFilter(g: Grouping, items: seq<ImportItem>)
    requires |items| > 0
    requires GroupsAreFilters(g, items[..|items| - 1]) && CoversItems(g, items[..|items| - 1])
    ensures GroupsAreFilters(AddItem(g, items[|items| - 1]), items)
  {
    var init := items[..|items| - 1];
    var x := items[|items| - 1];
    assert init + [x] == items;
    forall k | k in AddItem(g, x).groups
      ensures |AddItem(g, x).groups[k]| > 0 && AddItem(g, x).groups[k] == Filter(items, HasListId(k))
    {
      AddItemGroupFilter(g, init, x, k);
    }
  }

  /** Adding an item keeps the order free of repeats and in step with the groups. */
  lemma AddItemOrder(g: Grouping, x: ImportItem)
    requires OrderMatchesGroups(g)
    ensures OrderMatchesGroups(AddItem(g, x))
  {
    var r := AddItem(g, x);
    if x.listId !in g.groups {
      forall i, j | 0 <= i < j < |r.order|
        ensures r.order[i] != r.order[j]
      {
        if j == |g.order| {
          assert r.order[i] == g.order[i];
        }
      }
    }
  }

  /** After adding the last item, every item has a group. */
  lemma AddItemCovers(g: Grouping, items: seq<ImportItem>)
    requires |items| > 0 && CoversItems(g, items[..|items| - 1])
    ensures CoversItems(AddItem(g, items[|items| - 1]), items)
  {
    var init := items[..|items| - 1];
    forall j | 0 <= j < |items|
      ensures items[j].listId in AddItem(g, items[|items| - 1]).groups
    {
      if j < |init| {
        assert items[j] == init[j];
      }
    }
  }

  /** Adding the last item to a partition of the items before it partitions all of them. */
  lemma AddItemPartitions(g: Grouping, items: seq<ImportItem>)
    requires |items| > 0 && Partitions(g, items[..|items| - 1])
    ensures Partitions(AddItem(g, items[|items| - 1]), items)
  {
    AddItemGroupsFilter(g, items);
    AddItemOrder(g, items[|items| - 1]);
    AddItemCovers(g, items);
  }

  /** The grouping of the import partitions the imported items by list id. */
  lemma {:induction false} GroupByListPartitions(items: seq<ImportItem>)
    ensures Partitions(GroupByList(items), items)
    decreases |items|
  {
    if |items| > 0 {
      var init := items[..|items| - 1];
      var x := items[|items| - 1];
      GroupByListPartitions(init);
      assert GroupByList(items) == AddItem(GroupByList(init), x);
      AddItemPartitions(GroupByList(init), items);
    }
  }

  /** The lists visited are exactly the distinct list ids of the file, each once. */
  lemma GroupOrderIsDistinctListIds(items: seq<ImportItem>)
    ensures Distinct(GroupByList(items).order)
    ensures Elements(GroupByList(items).order) == Elements(ListIds(items))
    ensures |GroupByList(items).order| == |Elements(ListIds(items))|
  {
    GroupByListPartitions(items);
    PartitionOrderIsListIds(GroupByList(items), items);
  }

  /** Every list id in the order has a group and every group is in the order. */
  lemma GroupOrderMatchesGroups(items: seq<ImportItem>)
    ensures forall k :: k in GroupByList(items).order <==> k in GroupByList(items).groups
  {
    GroupByListPartitions(items);
  }

  /** The position where `k` first occurs in `s`. */
  function FirstIndex(s: seq<string>, k: string): (i: nat)
    requires k in s
    ensures i < |s| && s[i] == k && forall j :: 0 <= j < i ==> s[j] != k
  {
    if s[0] == k then 0 else 1 + FirstIndex(s[1..], k)
  }

  /** `order` lists ids of `ids`, each before the next in order of first occurrence. */
  ghost predicate InFirstAppearanceOrder(order: seq<string>, ids: seq<string>) {
    && (forall i :: 0 <= i < |order| ==> order[i] in ids)
    && (forall i, j :: 0 <= i < j < |order| ==> FirstIndex(ids, order[i]) < FirstIndex(ids, order[j]))
  }

  /** Appending to `s` does not move the first occurrence of a value already in it. */
  lemma FirstIndexSnoc(s: seq<string>, y: string, k: string)
    requires k in s
    ensures FirstIndex(s + [y], k) == FirstIndex(s, k)
  {
    assert (s + [y])[FirstIndex(s, k)] == k;
  }

  /** A value new to `s` first occurs at the appended position. */
  lemma FirstIndexNew(s: seq<string>, y: string)
    requires y !in s
    ensures FirstIndex(s + [y], y) == |s|
  {
  }

  /** Adding one item keeps the order in first-appearance order of the list ids seen so far. */
  lemma AddItemFirstAppearance(g: Grouping, ids: seq<string>, x: ImportItem)
    requires InFirstAppearanceOrder(g.order, ids)
    requires x.listId in g.groups <==> x.listId in ids
    requires x.listId in g.groups <==> x.listId in g.order
    ensures InFirstAppearanceOrder(AddItem(g, x).order, ids + [x.listId])
  {
    var ids1 := ids + [x.listId];
    forall i | 0 <= i < |g.order|
      ensures g.order[i] in ids1 && FirstIndex(ids1, g.order[i]) == FirstIndex(ids, g.order[i])
    {
      FirstIndexSnoc(ids, x.listId, g.order[i]);
    }
    if x.listId !in g.groups {
      var order := g.order + [x.listId];
      FirstIndexNew(ids, x.listId);
      forall i, j | 0 <= i < j < |order|
        ensures FirstIndex(ids1, order[i]) < FirstIndex(ids1, order[j])
      {
        assert order[i] == g.order[i];
        if j < |g.order| {
          assert order[j] == g.order[j];
        }
      }
      assert InFirstAppearanceOrder(order, ids1);
    }
  }

  /** The lists are visited in the order their ids first occur in the file. */
  lemma {:induction false} GroupOrderIsFirstAppearance(items: seq<ImportItem>)
    ensures InFirstAppearanceOrder(GroupByList(items).order, ListIds(items))
    decreases |items|
  {
    if |items| > 0 {
      var init, x := items[..|items| - 1], items[|items| - 1];
      var g := GroupByList(init);
      GroupOrderIsFirstAppearance(init);
      GroupOrderIsDistinctListIds(init);
      GroupOrderMatchesGroups(init);
      assert x.listId in g.order <==> x.listId in Elements(g.order);
      assert x.listId in ListIds(init) <==> x.listId in Elements(ListIds(init));
      AddItemFirstAppearance(g, ListIds(init), x);
      assert ListIds(items) == ListIds(init) + [x.listId];
    }
  }

  /** In any partition, the order lists each list id of the items exactly once. */
  lemma PartitionOrderIsListIds(g: Grouping, items: seq<ImportItem>)
    requires Partitions(g, items)
    ensures Distinct(g.order)
    ensures Elements(g.order) == Elements(ListIds(items))
    ensures |g.order| == |Elements(ListIds(items))|
  {
    OrderIdsAreListIds(g, items);
    ListIdsAreOrderIds(g, items);
    DistinctIffCardinality(g.order);
  }

  /** Every list in the order has an item in the file. */
  lemma OrderIdsAreListIds(g: Grouping, items: seq<ImportItem>)
    requires OrderMatchesGroups(g) && GroupsAreFilters(g, items)
    ensures forall k :: k in Elements(g.order) ==> k in Elements(ListIds(items))
  {
    forall k | k in Elements(g.order)
      ensures k in Elements(ListIds(items))
    {
      assert k in g.groups;
      var first := g.groups[k][0];
      assert first in items && first.listId == k;
      var j :| 0 <= j < |items| && items[j] == first;
      assert ListIds(items)[j] == k;
    }
  }

  /** Every item's list is in the order. */
  lemma ListIdsAreOrderIds(g: Grouping, items: seq<ImportItem>)
    requires OrderMatchesGroups(g) && CoversItems(g, items)
    ensures forall k :: k in Elements(ListIds(items)) ==> k in Elements(g.order)
  {
    forall k | k in Elements(ListIds(items))
      ensures k in Elements(g.order)
    {
      var j :| 0 <= j < |items| && ListIds(items)[j] == k;
      assert items[j].listId in g.groups;
    }
  }

  /** What the per-list database calls answered: how many items the list already had and
      the insert's error, or that a call threw. */
  datatype GroupReply = Answered(existing: nat, insertError: Option<string>) | Threw

  predicate Imported(reply: GroupReply) {
    reply.Answered? && reply.insertError.None?
  }

  /** The database calls of the import. */
  datatype ImportEffect = SelectExisting(listId: string) | DeleteExisting(listId: string) | InsertItems(listId: string, items: seq<ImportItem>)

  /** One list's calls: look up its items, delete them if there are any, then insert. */
  function GroupEffects(listId: string, items: seq<ImportItem>, reply: GroupReply): (r: seq<ImportEffect>)
    ensures |r| > 0 && r[0] == SelectExisting(listId)
    ensures reply.Answered? ==> r[|r| - 1] == InsertItems(listId, items)
    ensures (DeleteExisting(listId) in r) <==> reply.Answered? && reply.existing > 0
    ensures |r| == (if reply.Threw? then 1 else if reply.existing > 0 then 3 else 2)
  {
    match reply
    case Threw => [SelectExisting(listId)]
    case Answered(n, _) =>
      if n > 0 then [SelectExisting(listId), DeleteExisting(listId), InsertItems(listId, items)]
      else [SelectExisting(listId), InsertItems(listId, items)]
  }

  /** The import banner. */
  datatype ImportResult = ImportResult(success: bool, message: string)

  const ParseErrorMessage := "Error parsing JSON file. Please check the file format."
  const NotArrayMessage := "Invalid file format. Expected an array of list items."

  function TallyMessage(successCount: nat, errorCount: nat): string {
    "Imported items for " + Text.NatToString(successCount) + " lists with "
      + Text.NatToString(errorCount) + " errors."
  }

  /** The list ids among `ks` whose import succeeded (`ok`) or failed (`!ok`). */
  function KeysWhere(ks: seq<string>, replyFor: string -> GroupReply, ok: bool): set<string> {
    set k | k in ks && Imported(replyFor(k)) == ok
  }

  /** The ids among `ids` whose import succeeded (`ok`) or failed (`!ok`). */
  function IdsWhere(ids: set<string>, replyFor: string -> GroupReply, ok: bool): set<string> {
    set k | k in ids && Imported(replyFor(k)) == ok
  }

  /** No failed id is the same as every id imported. */
  lemma NoFailuresIffAllImported(ids: set<string>, replyFor: string -> GroupReply)
    ensures |IdsWhere(ids, replyFor, false)| == 0 <==> forall k :: k in ids ==> Imported(replyFor(k))
  {
    var bad := IdsWhere(ids, replyFor, false);
    if |bad| != 0 {
      var k :| k in bad;
      assert k in ids && !Imported(replyFor(k));
    } else {
      forall k | k in ids ensures Imported(replyFor(k)) {
        assert k !in bad;
      }
    }
  }

  /** Processing one more list id, not seen before, adds it to exactly one of the two sets. */
  lemma KeysWhereStep(done: seq<string>, k: string, replyFor: string -> GroupReply, ok: bool)
    requires k !in done
    ensures |KeysWhere(done + [k], replyFor, ok)|
      == |KeysWhere(done, replyFor, ok)| + (if Imported(replyFor(k)) == ok then 1 else 0)
  {
    var before := KeysWhere(done, replyFor, ok);
    var after := KeysWhere(done + [k], replyFor, ok);
    assert k !in before;
    if Imported(replyFor(k)) == ok {
      assert after == before + {k};
    } else {
      assert after == before;
    }
  }

  /** An id of a list with no repeats does not occur before its own position. */
  lemma NotSeenBefore(order: seq<string>, i: int)
    requires Distinct(order) && 0 <= i < |order|
    ensures order[i] !in order[..i] && order[..i + 1] == order[..i] + [order[i]]
  {
    forall j | 0 <= j < i ensures order[..i][j] != order[i] {
      assert order[..i][j] == order[j];
    }
  }

  /** Once every list id is processed, the two sets split the file's list ids. */
  lemma KeysWhereSplit(items: seq<ImportItem>, replyFor: string -> GroupReply)
    ensures var order := GroupByList(items).order;
      var ids := Elements(ListIds(items));
      && KeysWhere(order, replyFor, true) == IdsWhere(ids, replyFor, true)
      && KeysWhere(order, replyFor, false) == IdsWhere(ids, replyFor, false)
      && |KeysWhere(order, replyFor, true)| + |KeysWhere(order, replyFor, false)| == |ids|
  {
    GroupOrderIsDistinctListIds(items);
    var order := GroupByList(items).order;
    var ids := Elements(ListIds(items));
    var good := KeysWhere(order, replyFor, true);
    var bad := KeysWhere(order, replyFor, false);
    assert good == IdsWhere(ids, replyFor, true);
    assert bad == IdsWhere(ids, replyFor, false);
    assert good * bad == {};
    assert good + bad == ids;
  }

  /** The groups the loop walks: every id of the order has a group. */
  lemma OrderHasGroups(items: seq<ImportItem>)
    ensures var g := GroupByList(items); Distinct(g.order) && forall k :: k in g.order ==> k in g.groups
  {
    GroupByListPartitions(items);
  }

  /** The calls made for the groups of `ids`, one list after another. */
  function GroupsEffects(g: Grouping, ids: seq<string>, replyFor: string -> GroupReply): seq<ImportEffect>
    requires forall k :: k in ids ==> k in g.groups
  {
    if |ids| == 0 then []
    else
      var last := ids[|ids| - 1];
      GroupsEffects(g, ids[..|ids| - 1], replyFor) + GroupEffects(last, g.groups[last], replyFor(last))
  }

  /** Processing the group at position `i` extends the calls by that group's calls and
      adds its list id to exactly one of the two tallies. */
  lemma GroupStep(g: Grouping, order: seq<string>, i: int, replyFor: string -> GroupReply)
    requires Distinct(order) && 0 <= i < |order|
    requires forall k :: k in order ==> k in g.groups
    ensures GroupsEffects(g, order[..i + 1], replyFor)
      == GroupsEffects(g, order[..i], replyFor) + GroupEffects(order[i], g.groups[order[i]], replyFor(order[i]))
    ensures |KeysWhere(order[..i + 1], replyFor, true)|
      == |KeysWhere(order[..i], replyFor, true)| + (if Imported(replyFor(order[i])) then 1 else 0)
    ensures |KeysWhere(order[..i + 1], replyFor, false)|
      == |KeysWhere(order[..i], replyFor, false)| + (if Imported(replyFor(order[i])) then 0 else 1)
  {
    NotSeenBefore(order, i);
    assert order[..i + 1][..i] == order[..i];
    KeysWhereStep(order[..i], order[i], replyFor, true);
    KeysWhereStep(order[..i], order[i], replyFor, false);
  }

  /** The loop of `importListItems` over the groups in the order their lists were met:
      each group adds one to the success or to the error count. */
  method ProcessGroups(g: Grouping, replyFor: string -> GroupReply)
    returns (effects: seq<ImportEffect>, successCount: nat, errorCount: nat)
    requires Distinct(g.order) && forall k :: k in g.order ==> k in g.groups
    ensures effects == GroupsEffects(g, g.order, replyFor)
    ensures successCount == |KeysWhere(g.order, replyFor, true)|
    ensures errorCount == |KeysWhere(g.order, replyFor, false)|
  {
    var order := g.order;
    effects, successCount, errorCount := [], 0, 0;
    var i := 0;
    while i < |order|
      invariant 0 <= i <= |order|
      invariant effects == GroupsEffects(g, order[..i], replyFor)
      invariant successCount == |KeysWhere(order[..i], replyFor, true)|
      invariant errorCount == |KeysWhere(order[..i], replyFor, false)|
    {
      var listId := order[i];
      var reply := replyFor(listId);
      GroupStep(g, order, i, replyFor);
      effects := effects + GroupEffects(listId, g.groups[listId], reply);
      if Imported(reply) {
        successCount := successCount + 1;
      } else {
        errorCount := errorCount + 1;
      }
      i := i + 1;
    }
    assert order[..i] == order;
  }

  /** `importListItems`: an empty or unparseable file and a non-array are reported
      without any call. Otherwise each list's group is processed in turn, and each adds
      one to exactly one of the two counts; the import succeeds when no list failed. */
  method ImportListItems(file: ImportFile, replyFor: string -> GroupReply)
    returns (result: ImportResult, effects: seq<ImportEffect>, successCount: nat, errorCount: nat)
    ensures file.EmptyFile? || file.Unparseable? ==> result == ImportResult(false, ParseErrorMessage) && effects == []
    ensures file.NotAnArray? ==> result == ImportResult(false, NotArrayMessage) && effects == []
    ensures file.Items? ==>
      var ids := Elements(ListIds(file.items));
      && successCount + errorCount == |ids|
      && successCount == |IdsWhere(ids, replyFor, true)|
      && errorCount == |IdsWhere(ids, replyFor, false)|
      && (result.success <==> forall k :: k in ids ==> Imported(replyFor(k)))
      && result == ImportResult(errorCount == 0, TallyMessage(successCount, errorCount))
    ensures file.Items? ==>
      var g := GroupByList(file.items);
      (forall k :: k in g.order ==> k in g.groups) && effects == GroupsEffects(g, g.order, replyFor)
  {
    if file.EmptyFile? || file.Unparseable? {
      return ImportResult(false, ParseErrorMessage), [], 0, 0;
    } else if file.NotAnArray? {
      return ImportResult(false, NotArrayMessage), [], 0, 0;
    }
    var items := file.items;
    OrderHasGroups(items);
    effects, successCount, errorCount := ProcessGroups(GroupByList(items), replyFor);
    KeysWhereSplit(items, replyFor);
    NoFailuresIffAllImported(Elements(ListIds(items)), replyFor);
    result := ImportResult(errorCount == 0, TallyMessage(successCount, errorCount));
  }
}
