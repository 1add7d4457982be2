/** The admin screen (app/private/admin/page.tsx): the local copies of categories, lists
    and list items, the required-field guards in front of every write, and how each
    handler updates the local copies from the database's reply. Writes are returned as
    data; replies and `confirm()` answers are parameters. */
module Admin {
  import opened Wrappers
  import opened Seqs
  import Text

  datatype Category = Category(id: string, name: string, icon: string, description: Option<string>)

  datatype ListRec = ListRec(
    id: string, categoryId: string, title: string, description: Option<string>,
    sourceUrl: Option<string>, referenceInfo: Option<string>, year: Option<int>)

  datatype ListItem = ListItem(
    id: string, listId: string, rank: int, name: string,
    details: Option<string>, statistic: Option<string>)

  /** A list item before the database has given it an id. */
  datatype ItemDraft = ItemDraft(listId: string, rank: int, name: string, details: Option<string>, statistic: Option<string>)

  datatype NoticeKind = Success | Failure

  /** The notification banner. */
  datatype Notice = Notice(kind: NoticeKind, message: string)

  /** The local state the handlers maintain. */
  datatype Admin = Admin(
    categories: seq<Category>,
    lists: seq<ListRec>,
    items: seq<ListItem>,
    expandedCategory: Option<string>,
    expandedList: Option<string>,
    notice: Option<Notice>)

  /** The database writes the handlers issue. */
  datatype Write =
    | InsertCategory(name: string, icon: string, description: Option<string>)
    | UpdateCategoryRow(categoryId: string, name: string, icon: string, description: Option<string>)
    | DeleteCategoryRow(categoryId: string)
    | InsertList(category: string, title: string, description: Option<string>,
                 sourceUrl: Option<string>, referenceInfo: Option<string>, year: Option<int>)
    | InsertItems(drafts: seq<ItemDraft>)
    | UpdateListRow(listId: string, category: string, title: string, description: Option<string>,
                    sourceUrl: Option<string>, referenceInfo: Option<string>, year: Option<int>)
    | DeleteListRow(listId: string)
    | UpdateItemRow(itemId: string, rank: int, name: string, details: Option<string>, statistic: Option<string>)

  /** A handler's effect: the new local state and the writes issued, in order. */
  datatype Outcome = Outcome(state: Admin, writes: seq<Write>)

  function Fail(st: Admin, message: string): Admin {
    st.(notice := Some(Notice(Failure, message)))
  }

  function Succeed(st: Admin, message: string): Admin {
    st.(notice := Some(Notice(Success, message)))
  }

  /** `value || null` on an optional text field: a missing or empty text becomes `null`. */
  function NullIfEmpty(s: Option<string>): (r: Option<string>)
    ensures r.Some? <==> s.Some? && s.value != ""
    ensures r.Some? ==> r == s
  {
    if s.Some? && s.value != "" then s else None
  }

  /** `year || null`: a missing year or the year 0 becomes `null`. */
  function NullIfZero(y: Option<int>): (r: Option<int>)
    ensures r.Some? <==> y.Some? && y.value != 0
    ensures r.Some? ==> r == y
  {
    if y.Some? && y.value != 0 then y else None
  }

  // ----- item collections -----

  /** The ten empty items a new list starts with. */
  const TemplateSize := 10

  /** `generateEmptyListItems`: ten nameless items of the list, ranked 1 to 10 in order. */
  function EmptyListItems(listId: string): (r: seq<ItemDraft>)
    ensures |r| == TemplateSize
    ensures forall i :: 0 <= i < |r| ==>
      r[i].listId == listId && r[i].rank == i + 1 && r[i].name == ""
      && r[i].details.None? && r[i].statistic.None?
  {
    seq(TemplateSize, i requires 0 <= i < TemplateSize => ItemDraft(listId, i + 1, "", None, None))
  }

  function DraftRanks(ds: seq<ItemDraft>): (r: seq<int>)
    ensures |r| == |ds| && forall i :: 0 <= i < |ds| ==> r[i] == ds[i].rank
  {
    seq(|ds|, i requires 0 <= i < |ds| => ds[i].rank)
  }

  /** The template's ranks are distinct and are exactly 1..10. */
  lemma EmptyListItemsRanks(listId: string)
    ensures var ranks := DraftRanks(EmptyListItems(listId));
      Distinct(ranks) && forall k :: k in Elements(ranks) <==> 1 <= k <= TemplateSize
  {
    var ranks := DraftRanks(EmptyListItems(listId));
    forall k | 1 <= k <= TemplateSize
      ensures k in Elements(ranks)
    {
      assert ranks[k - 1] == k;
    }
  }

  /** The test "this item belongs to list `listId`". */
  function InList(listId: string): ListItem -> bool {
    (it: ListItem) => it.listId == listId
  }

  /** The test "this item belongs to another list than `listId`". */
  function NotInList(listId: string): ListItem -> bool {
    (it: ListItem) => it.listId != listId
  }

  /** The merge in `fetchListItems`: the items of other lists, in order, followed by the
      fetched items. */
  function MergeFetched(prev: seq<ListItem>, listId: string, fetched: seq<ListItem>): (r: seq<ListItem>)
    ensures |r| >= |fetched| && r[|r| - |fetched|..] == fetched
    ensures forall i :: 0 <= i < |r| - |fetched| ==> r[i] in prev && r[i].listId != listId
    ensures forall i :: 0 <= i < |prev| && prev[i].listId != listId ==> prev[i] in r
  {
    Filter(prev, NotInList(listId)) + fetched
  }

  /** Loading the same fetched items of a list twice is the same as loading them once:
      no stale copy of the list survives a fetch. */
  lemma MergeFetchedIdempotent(prev: seq<ListItem>, listId: string, fetched: seq<ListItem>)
    requires forall i :: 0 <= i < |fetched| ==> fetched[i].listId == listId
    ensures MergeFetched(MergeFetched(prev, listId, fetched), listId, fetched) == MergeFetched(prev, listId, fetched)
  {
    var kept := Filter(prev, NotInList(listId));
    FilterAppend(kept, fetched, NotInList(listId));
    FilterIdempotent(prev, NotInList(listId));
    FilterNone(fetched, NotInList(listId));
    assert Filter(kept + fetched, NotInList(listId)) == kept;
  }

  /** The part of the merge before the fetched items is exactly the other lists' items of
      `prev`, each once and in their original order: `prev` read at the increasing
      positions whose item belongs to another list. */
  lemma MergeFetchedKeepsOthersInOrder(prev: seq<ListItem>, listId: string, fetched: seq<ListItem>)
    ensures var r := MergeFetched(prev, listId, fetched);
      var idx := KeptIndices(prev, NotInList(listId));
      && |r| == |idx| + |fetched|
      && (forall i :: 0 <= i < |idx| ==> 0 <= idx[i] < |prev| && r[i] == prev[idx[i]])
      && (forall i, j :: 0 <= i < j < |idx| ==> idx[i] < idx[j])
      && (forall j :: 0 <= j < |prev| ==> (prev[j].listId != listId <==> j in idx))
  {
    FilterIsKeptSubsequence(prev, NotInList(listId));
  }

  /** `fetchListItems`: on success the list's items are replaced by the fetched ones; on
      error only the notification changes. */
  function FetchListItems(st: Admin, listId: string, reply: Reply<seq<ListItem>>): (r: Admin)
    ensures reply.Err? ==> r == Fail(st, "Error fetching list items: " + reply.message)
    ensures reply.Ok? ==> r == st.(items := MergeFetched(st.items, listId, reply.rows))
  {
    match reply
    case Err(m) => Fail(st, "Error fetching list items: " + m)
    case Ok(rows) => st.(items := MergeFetched(st.items, listId, rows))
  }

  /** The item fields the edit form changes, with the typed-in value. */
  datatype FieldEdit = EditName(name: string) | EditDetails(details: string) | EditStatistic(statistic: string)

  /** `{ ...item, [field]: value }`: the named field takes the value, the rest stays. */
  function ApplyFieldEdit(it: ListItem, e: FieldEdit): (r: ListItem)
    ensures r.id == it.id && r.listId == it.listId && r.rank == it.rank
    ensures r.name == (if e.EditName? then e.name else it.name)
    ensures r.details == (if e.EditDetails? then Some(e.details) else it.details)
    ensures r.statistic == (if e.EditStatistic? then Some(e.statistic) else it.statistic)
  {
    match e
    case EditName(v) => it.(name := v)
    case EditDetails(v) => it.(details := Some(v))
    case EditStatistic(v) => it.(statistic := Some(v))
  }

  /** `handleListItemChange`: every item with the id gets the edit, every other item is
      kept; positions, ids, lists and ranks never change. */
  function EditItem(items: seq<ListItem>, itemId: string, e: FieldEdit): (r: seq<ListItem>)
    ensures |r| == |items|
    ensures forall i :: 0 <= i < |items| ==>
      r[i].id == items[i].id && r[i].listId == items[i].listId && r[i].rank == items[i].rank
    ensures forall i :: 0 <= i < |items| && items[i].id != itemId ==> r[i] == items[i]
    ensures forall i :: 0 <= i < |items| && items[i].id == itemId ==> r[i] == ApplyFieldEdit(items[i], e)
  {
    seq(|items|, i requires 0 <= i < |items| =>
      if items[i].id == itemId then ApplyFieldEdit(items[i], e) else items[i])
  }

  // ----- replace by id -----

  /** `xs.map(x => x.id === y.id ? y : x)`. */
  function ReplaceById<T>(xs: seq<T>, id: T -> string, y: T): (r: seq<T>)
    ensures |r| == |xs|
    ensures forall i :: 0 <= i < |xs| ==> id(r[i]) == id(xs[i])
    ensures forall i :: 0 <= i < |xs| && id(xs[i]) != id(y) ==> r[i] == xs[i]
    ensures forall i :: 0 <= i < |xs| && id(xs[i]) == id(y) ==> r[i] == y
  {
    seq(|xs|, i requires 0 <= i < |xs| => if id(xs[i]) == id(y) then y else xs[i])
  }

  function IdsOf<T>(xs: seq<T>, id: T -> string): (r: seq<string>)
    ensures |r| == |xs| && forall i :: 0 <= i < |xs| ==> r[i] == id(xs[i])
  {
    seq(|xs|, i requires 0 <= i < |xs| => id(xs[i]))
  }

  /** When ids are unique, replacing by id changes exactly the one element carrying that
      id, and changes nothing when no element carries it. */
  lemma ReplaceByIdChangesOne<T>(xs: seq<T>, id: T -> string, y: T)
    requires Distinct(IdsOf(xs, id))
    ensures forall k :: 0 <= k < |xs| && id(xs[k]) == id(y) ==> ReplaceById(xs, id, y) == xs[k := y]
    ensures (forall k :: 0 <= k < |xs| ==> id(xs[k]) != id(y)) ==> ReplaceById(xs, id, y) == xs
  {
    var ids := IdsOf(xs, id);
    forall k | 0 <= k < |xs| && id(xs[k]) == id(y)
      ensures ReplaceById(xs, id, y) == xs[k := y]
    {
      forall i | 0 <= i < |xs| && i != k
        ensures id(xs[i]) != id(y)
      {
        assert ids[i] != ids[k];
      }
    }
  }

  function CategoryId(c: Category): string { c.id }
  function ListId(l: ListRec): string { l.id }
  function ItemId(it: ListItem): string { it.id }

  // ----- categories -----

  datatype CategoryForm = CategoryForm(name: string, icon: string, description: Option<string>)

  /** The guard of `createCategory` and `updateCategory`: both a name and an icon. */
  predicate CategoryFieldsPresent(name: string, icon: string) {
    name != "" && icon != ""
  }

  /** `createCategory`: without a name or an icon nothing is written; otherwise the
      category is inserted and, if the insert succeeds, appended to the local copy. */
  function CreateCategory(st: Admin, form: CategoryForm, reply: Reply<Category>): (r: Outcome)
    ensures !CategoryFieldsPresent(form.name, form.icon) ==>
      r == Outcome(Fail(st, "Category name and icon are required"), [])
    ensures CategoryFieldsPresent(form.name, form.icon) ==>
      r.writes == [InsertCategory(form.name, form.icon, NullIfEmpty(form.description))]
    ensures r.state.lists == st.lists && r.state.items == st.items
    ensures reply.Ok? && CategoryFieldsPresent(form.name, form.icon) ==>
      r.state.categories == st.categories + [reply.rows]
    ensures reply.Err? ==> r.state.categories == st.categories
  {
    if !CategoryFieldsPresent(form.name, form.icon) then
      Outcome(Fail(st, "Category name and icon are required"), [])
    else
      var w := [InsertCategory(form.name, form.icon, NullIfEmpty(form.description))];
      match reply
      case Err(m) => Outcome(Fail(st, "Error creating category: " + m), w)
      case Ok(c) =>
        Outcome(Succeed(st.(categories := st.categories + [c]),
                        "Category \"" + c.name + "\" created successfully"), w)
  }

  /** `updateCategory`: with no category under edit, or one without a name or icon,
      nothing is written; otherwise the row is updated and the returned category
      replaces the local one with its id. */
  function UpdateCategory(st: Admin, editing: Option<Category>, reply: Reply<Category>): (r: Outcome)
    ensures editing.None? || !CategoryFieldsPresent(editing.value.name, editing.value.icon) ==>
      r == Outcome(Fail(st, "Category name and icon are required"), [])
    ensures editing.Some? && CategoryFieldsPresent(editing.value.name, editing.value.icon) ==>
      var c := editing.value;
      r.writes == [UpdateCategoryRow(c.id, c.name, c.icon, NullIfEmpty(c.description))]
    ensures reply.Err? ==> r.state.categories == st.categories
    ensures editing.Some? && CategoryFieldsPresent(editing.value.name, editing.value.icon) && reply.Ok? ==>
      r.state.categories == ReplaceById(st.categories, CategoryId, reply.rows)
    ensures r.state.lists == st.lists && r.state.items == st.items
  {
    if editing.None? || !CategoryFieldsPresent(editing.value.name, editing.value.icon) then
      Outcome(Fail(st, "Category name and icon are required"), [])
    else
      var c := editing.value;
      var w := [UpdateCategoryRow(c.id, c.name, c.icon, NullIfEmpty(c.description))];
      match reply
      case Err(m) => Outcome(Fail(st, "Error updating category: " + m), w)
      case Ok(d) =>
        Outcome(Succeed(st.(categories := ReplaceById(st.categories, CategoryId, d)),
                        "Category \"" + d.name + "\" updated successfully"), w)
  }

  /** The lists of a category. */
  function ListsOf(lists: seq<ListRec>, categoryId: string): (r: seq<ListRec>)
    ensures forall i :: 0 <= i < |r| ==> r[i] in lists && r[i].categoryId == categoryId
    ensures forall i :: 0 <= i < |lists| && lists[i].categoryId == categoryId ==> lists[i] in r
  {
    Filter(lists, (l: ListRec) => l.categoryId == categoryId)
  }

  function ListIdSet(ls: seq<ListRec>): set<string> {
    set l | l in ls :: l.id
  }

  /** The item part of the cascade as `deleteCategory` writes it: every iteration of the
      loop sets the items to the ORIGINAL items minus those of one list, so each
      assignment discards the previous one. `pending` is the value the last assignment
      stored so far. */
  function CascadeItemsAsWritten(snapshot: seq<ListItem>, pending: seq<ListItem>, categoryLists: seq<ListRec>): seq<ListItem>
    decreases |categoryLists|
  {
    if |categoryLists| == 0 then pending
    else CascadeItemsAsWritten(snapshot, Filter(snapshot, NotInList(categoryLists[0].id)), categoryLists[1..])
  }

  /** Only the last list's filter survives the loop. */
  lemma {:induction false} CascadeAsWrittenKeepsLastFilter(snapshot: seq<ListItem>, pending: seq<ListItem>, categoryLists: seq<ListRec>)
    ensures CascadeItemsAsWritten(snapshot, pending, categoryLists)
      == if |categoryLists| == 0 then pending
         else Filter(snapshot, NotInList(categoryLists[|categoryLists| - 1].id))
    decreases |categoryLists|
  {
    if |categoryLists| > 0 {
      var first := Filter(snapshot, NotInList(categoryLists[0].id));
      var rest := categoryLists[1..];
      assert CascadeItemsAsWritten(snapshot, pending, categoryLists) == CascadeItemsAsWritten(snapshot, first, rest);
      CascadeAsWrittenKeepsLastFilter(snapshot, first, rest);
      if |rest| > 0 {
        assert rest[|rest| - 1] == categoryLists[|categoryLists| - 1];
      }
    }
  }

  /** A category with two lists of one item each: the loop as written keeps the first
      list's item in the local state although its list is gone. */
  lemma CascadeAsWrittenLeavesOrphans()
    ensures
      var a := ListRec("l1", "c", "A", None, None, None, None);
      var b := ListRec("l2", "c", "B", None, None, None, None);
      var x := ListItem("i1", "l1", 1, "x", None, None);
      var y := ListItem("i2", "l2", 1, "y", None, None);
      CascadeItemsAsWritten([x, y], [x, y], [a, b]) == [x]
  {
    var a := ListRec("l1", "c", "A", None, None, None, None);
    var b := ListRec("l2", "c", "B", None, None, None, None);
    var x := ListItem("i1", "l1", 1, "x", None, None);
    var y := ListItem("i2", "l2", 1, "y", None, None);
    CascadeAsWrittenKeepsLastFilter([x, y], [x, y], [a, b]);
    assert Filter([y], NotInList("l2")) == [];
    assert Filter([x, y], NotInList("l2")) == [x];
  }

  /** The cascade `deleteCategory` evidently intends: the items of every deleted list go. */
  function CascadeItems(items: seq<ListItem>, categoryLists: seq<ListRec>): (r: seq<ListItem>)
    ensures forall i :: 0 <= i < |r| ==> r[i] in items && forall l :: l in categoryLists ==> r[i].listId != l.id
    ensures forall i :: 0 <= i < |items| && (forall l :: l in categoryLists ==> items[i].listId != l.id) ==> items[i] in r
  {
    var gone := ListIdSet(categoryLists);
    Filter(items, (it: ListItem) => it.listId !in gone)
  }

  /** `deleteCategory`: without confirmation nothing happens; otherwise the row is
      deleted and, on success, the category, its lists and (corrected) all their items
      leave the local state. */
  function DeleteCategory(st: Admin, c: Category, confirmed: bool, error: Option<string>): (r: Outcome)
    ensures !confirmed ==> r == Outcome(st, [])
    ensures confirmed ==> r.writes == [DeleteCategoryRow(c.id)]
    ensures error.Some? ==> r.state.categories == st.categories && r.state.lists == st.lists && r.state.items == st.items
    ensures confirmed && error.None? ==>
      && (forall x :: x in r.state.categories ==> x in st.categories && x.id != c.id)
      && (forall l :: l in r.state.lists ==> l in st.lists && l.categoryId != c.id)
      && (forall it :: it in r.state.items ==>
            it in st.items && forall l :: l in st.lists && l.categoryId == c.id ==> it.listId != l.id)
    ensures confirmed && error.None? ==>
      && (forall x :: x in st.categories && x.id != c.id ==> x in r.state.categories)
      && (forall l :: l in st.lists && l.categoryId != c.id ==> l in r.state.lists)
      && (forall it :: it in st.items && (forall l :: l in st.lists && l.categoryId == c.id ==> it.listId != l.id) ==>
            it in r.state.items)
      && r.state.items == CascadeItems(st.items, ListsOf(st.lists, c.id))
  {
    if !confirmed then Outcome(st, [])
    else
      var w := [DeleteCategoryRow(c.id)];
      match error
      case Some(m) => Outcome(Fail(st, "Error deleting category: " + m), w)
      case None =>
        var categoryLists := ListsOf(st.lists, c.id);
        var st' := st.(
          categories := Filter(st.categories, (x: Category) => x.id != c.id),
          lists := Filter(st.lists, (l: ListRec) => l.categoryId != c.id),
          items := CascadeItems(st.items, categoryLists));
        Outcome(Succeed(st', "Category \"" + c.name + "\" deleted successfully"), w)
  }

  /** `deleteCategory` as written: the same, except for the item cascade. */
  function DeleteCategoryAsWritten(st: Admin, c: Category, confirmed: bool, error: Option<string>): (r: Outcome)
    ensures r.writes == DeleteCategory(st, c, confirmed, error).writes
    ensures r.state.(items := st.items) == DeleteCategory(st, c, confirmed, error).state.(items := st.items)
    ensures confirmed && error.None? ==>
      r.state.items == CascadeItemsAsWritten(st.items, st.items, ListsOf(st.lists, c.id))
  {
    if !confirmed then Outcome(st, [])
    else
      var w := [DeleteCategoryRow(c.id)];
      match error
      case Some(m) => Outcome(Fail(st, "Error deleting category: " + m), w)
      case None =>
        var categoryLists := ListsOf(st.lists, c.id);
        var st' := st.(
          categories := Filter(st.categories, (x: Category) => x.id != c.id),
          lists := Filter(st.lists, (l: ListRec) => l.categoryId != c.id),
          items := CascadeItemsAsWritten(st.items, st.items, categoryLists));
        Outcome(Succeed(st', "Category \"" + c.name + "\" deleted successfully"), w)
  }

  // ----- lists -----

  datatype ListForm = ListForm(
    title: string, description: Option<string>, sourceUrl: Option<string>,
    referenceInfo: Option<string>, year: Option<int>)

  /** `createList`: without a title and a chosen category nothing is written. Otherwise
      the list is inserted, appended locally, and its ten template items are inserted
      and, if that succeeds, appended locally. The final banner is the success one even
      when the item insert failed, because it is set last. */
  function CreateList(st: Admin, form: ListForm, category: Option<string>,
                      reply: Reply<ListRec>, itemsReply: Reply<seq<ListItem>>): (r: Outcome)
    ensures form.title == "" || category.None? || category.value == "" ==>
      r == Outcome(Fail(st, "List title and category are required"), [])
    ensures form.title != "" && category.Some? && category.value != "" && reply.Err? ==>
      |r.writes| == 1 && r.writes[0].InsertList? && r.state.lists == st.lists && r.state.items == st.items
    ensures form.title != "" && category.Some? && category.value != "" && reply.Ok? ==>
      && |r.writes| == 2
      && r.writes[1] == InsertItems(EmptyListItems(reply.rows.id))
      && r.state.lists == st.lists + [reply.rows]
      && r.state.items == st.items + (if itemsReply.Ok? then itemsReply.rows else [])
      && r.state.notice == Some(Notice(Success, "List \"" + reply.rows.title + "\" created successfully"))
    ensures r.writes != [] ==>
      r.writes[0] == InsertList(category.value, form.title, NullIfEmpty(form.description),
                                NullIfEmpty(form.sourceUrl), NullIfEmpty(form.referenceInfo), NullIfZero(form.year))
    ensures r.state.categories == st.categories
  {
    if form.title == "" || category.None? || category.value == "" then
      Outcome(Fail(st, "List title and category are required"), [])
    else
      var w0 := InsertList(category.value, form.title, NullIfEmpty(form.description),
                           NullIfEmpty(form.sourceUrl), NullIfEmpty(form.referenceInfo), NullIfZero(form.year));
      match reply
      case Err(m) => Outcome(Fail(st, "Error creating list: " + m), [w0])
      case Ok(l) =>
        var w1 := InsertItems(EmptyListItems(l.id));
        var withList := st.(lists := st.lists + [l]);
        var withItems := match itemsReply
          case Err(m) => Fail(withList, "List created but error adding items: " + m)
          case Ok(rows) => withList.(items := st.items + rows);
        Outcome(Succeed(withItems, "List \"" + l.title + "\" created successfully"), [w0, w1])
  }

  /** `updateList`: without a list under edit or without a title nothing is written;
      otherwise the row is updated and the returned list replaces the local one. */
  function UpdateList(st: Admin, editing: Option<ListRec>, reply: Reply<ListRec>): (r: Outcome)
    ensures editing.None? || editing.value.title == "" ==>
      r == Outcome(Fail(st, "List title is required"), [])
    ensures editing.Some? && editing.value.title != "" ==>
      var l := editing.value;
      r.writes == [UpdateListRow(l.id, l.categoryId, l.title, NullIfEmpty(l.description),
                                 NullIfEmpty(l.sourceUrl), NullIfEmpty(l.referenceInfo), NullIfZero(l.year))]
    ensures reply.Err? ==> r.state.lists == st.lists
    ensures editing.Some? && editing.value.title != "" && reply.Ok? ==>
      r.state.lists == ReplaceById(st.lists, ListId, reply.rows)
    ensures r.state.categories == st.categories && r.state.items == st.items
  {
    if editing.None? || editing.value.title == "" then
      Outcome(Fail(st, "List title is required"), [])
    else
      var l := editing.value;
      var w := [UpdateListRow(l.id, l.categoryId, l.title, NullIfEmpty(l.description),
                              NullIfEmpty(l.sourceUrl), NullIfEmpty(l.referenceInfo), NullIfZero(l.year))];
      match reply
      case Err(m) => Outcome(Fail(st, "Error updating list: " + m), w)
      case Ok(d) =>
        Outcome(Succeed(st.(lists := ReplaceById(st.lists, ListId, d)),
                        "List \"" + d.title + "\" updated successfully"), w)
  }

  /** `deleteList`: after confirmation and a successful delete, the list and exactly its
      items leave the local state, and everything else keeps its order. */
  function DeleteList(st: Admin, l: ListRec, confirmed: bool, error: Option<string>): (r: Outcome)
    ensures !confirmed ==> r == Outcome(st, [])
    ensures confirmed ==> r.writes == [DeleteListRow(l.id)]
    ensures error.Some? ==> r.state.lists == st.lists && r.state.items == st.items
    ensures confirmed && error.None? ==>
      && r.state.lists == Filter(st.lists, (x: ListRec) => x.id != l.id)
      && r.state.items == Filter(st.items, NotInList(l.id))
    ensures r.state.categories == st.categories
  {
    if !confirmed then Outcome(st, [])
    else
      var w := [DeleteListRow(l.id)];
      match error
      case Some(m) => Outcome(Fail(st, "Error deleting list: " + m), w)
      case None =>
        Outcome(Succeed(st.(lists := Filter(st.lists, (x: ListRec) => x.id != l.id),
                            items := Filter(st.items, NotInList(l.id))),
                        "List \"" + l.title + "\" deleted successfully"), w)
  }

  /** After a successful `deleteList` no item of that list remains, and every item of
      another list is still there, in its original order. */
  lemma DeleteListRemovesExactlyItsItems(st: Admin, l: ListRec)
    ensures var r := DeleteList(st, l, true, None).state;
      && (forall it :: it in r.items ==> it in st.items && it.listId != l.id)
      && (forall i :: 0 <= i < |st.items| && st.items[i].listId != l.id ==> st.items[i] in r.items)
      && (forall x :: x in r.lists ==> x in st.lists && x.id != l.id)
  {
  }

  // ----- list items -----

  /** The update row a list item is saved with. */
  function ItemUpdate(it: ListItem): Write {
    UpdateItemRow(it.id, it.rank, it.name, NullIfEmpty(it.details), NullIfEmpty(it.statistic))
  }

  /** `updateListItem`: a nameless item is refused; otherwise it is written and the
      returned item replaces the local one with its id. */
  function UpdateListItem(st: Admin, it: ListItem, reply: Reply<ListItem>): (r: Outcome)
    ensures it.name == "" ==> r == Outcome(Fail(st, "Item name is required"), [])
    ensures it.name != "" ==> r.writes == [ItemUpdate(it)]
    ensures reply.Err? ==> r.state.items == st.items
    ensures it.name != "" && reply.Ok? ==> r.state.items == ReplaceById(st.items, ItemId, reply.rows)
    ensures r.state.categories == st.categories && r.state.lists == st.lists
  {
    if it.name == "" then Outcome(Fail(st, "Item name is required"), [])
    else
      var w := [ItemUpdate(it)];
      match reply
      case Err(m) => Outcome(Fail(st, "Error updating item: " + m), w)
      case Ok(d) =>
        Outcome(Succeed(st.(items := ReplaceById(st.items, ItemId, d)),
                        "Item #" + Text.IntToString(d.rank) + " updated successfully"), w)
  }

  /** The banner for an item whose update failed. */
  function ItemErrorMessage(it: ListItem, error: string): string {
    "Error updating item #" + Text.IntToString(it.rank) + ": " + error
  }

  /** `saveAllListItems`: if any item of the list has no name nothing is written;
      otherwise the items are written one at a time in order, stopping after the first
      one whose update fails. `replyFor` gives each update's error, if any. */
  method SaveAllListItems(items: seq<ListItem>, listId: string, replyFor: ListItem -> Option<string>)
    returns (writes: seq<Write>, notice: Notice)
    ensures var batch := Filter(items, InList(listId));
      (exists i :: 0 <= i < |batch| && batch[i].name == "") ==>
        writes == [] && notice == Notice(Failure, "All items must have a name")
    ensures var batch := Filter(items, InList(listId));
      (forall i :: 0 <= i < |batch| ==> batch[i].name != "") ==> SavedInOrder(batch, replyFor, writes, notice)
  {
    var batch := Filter(items, InList(listId));
    var i := 0;
    while i < |batch|
      invariant 0 <= i <= |batch|
      invariant forall j :: 0 <= j < i ==> batch[j].name != ""
    {
      if batch[i].name == "" {
        return [], Notice(Failure, "All items must have a name");
      }
      i := i + 1;
    }
    writes, notice := SaveBatch(batch, replyFor);
  }

  /** The outcome of writing `batch` one item after another: every write before the last
      succeeded, a failure stops the loop and reports that item, and success means every
      item was written. */
  ghost predicate SavedInOrder(batch: seq<ListItem>, replyFor: ListItem -> Option<string>,
                               writes: seq<Write>, notice: Notice) {
    && |writes| <= |batch|
    && (forall j :: 0 <= j < |writes| ==> writes[j] == ItemUpdate(batch[j]))
    && (forall j :: 0 <= j < |writes| - 1 ==> replyFor(batch[j]).None?)
    && (notice.kind == Success <==> forall j :: 0 <= j < |batch| ==> replyFor(batch[j]).None?)
    && (notice.kind == Success ==> |writes| == |batch| && notice.message == "All items saved successfully")
    && (notice.kind == Failure ==>
          |writes| > 0 && replyFor(batch[|writes| - 1]).Some?
          && notice.message == ItemErrorMessage(batch[|writes| - 1], replyFor(batch[|writes| - 1]).value))
  }

  /** The write loop of `saveAllListItems`, once every name has been checked. */
  method SaveBatch(batch: seq<ListItem>, replyFor: ListItem -> Option<string>)
    returns (writes: seq<Write>, notice: Notice)
    ensures SavedInOrder(batch, replyFor, writes, notice)
  {
    writes := [];
    var k := 0;
    while k < |batch|
      invariant 0 <= k <= |batch|
      invariant |writes| == k
      invariant forall j :: 0 <= j < k ==> writes[j] == ItemUpdate(batch[j])
      invariant forall j :: 0 <= j < k ==> replyFor(batch[j]).None?
    {
      writes := writes + [ItemUpdate(batch[k])];
      var e := replyFor(batch[k]);
      if e.Some? {
        return writes, Notice(Failure, ItemErrorMessage(batch[k], e.value));
      }
      k := k + 1;
    }
    notice := Notice(Success, "All items saved successfully");
  }

  // ----- expansion toggles -----

  /** `toggleCategoryExpanded` (and the expansion half of `toggleListExpanded`): the open
      entry closes, any other entry opens. */
  function Toggle(expanded: Option<string>, id: string): (r: Option<string>)
    ensures expanded == Some(id) ==> r.None?
    ensures expanded != Some(id) ==> r == Some(id)
  {
    if expanded == Some(id) then None else Some(id)
  }

  /** Toggling the same entry twice from "closed" or from "it is open" restores the state. */
  lemma ToggleTwiceRestores(expanded: Option<string>, id: string)
    requires expanded.None? || expanded == Some(id)
    ensures Toggle(Toggle(expanded, id), id) == expanded
  {
  }

  /** `toggleListExpanded`: collapsing never fetches; expanding fetches the list's items
      only when none of them are loaded. Returns whether a fetch was issued. */
  function ToggleList(st: Admin, listId: string, reply: Reply<seq<ListItem>>): (r: (Admin, bool))
    ensures r.0.expandedList == Toggle(st.expandedList, listId)
    ensures r.1 <==> st.expandedList != Some(listId) && forall it :: it in st.items ==> it.listId != listId
    ensures !r.1 ==> r.0 == st.(expandedList := Toggle(st.expandedList, listId))
    ensures r.1 ==> r.0 == FetchListItems(st.(expandedList := Some(listId)), listId, reply)
  {
    if st.expandedList == Some(listId) then (st.(expandedList := None), false)
    else
      var shown := st.(expandedList := Some(listId));
      if exists it :: it in st.items && it.listId == listId then (shown, false)
      else (FetchListItems(shown, listId, reply), true)
  }
}
