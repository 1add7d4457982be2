/** The category browser (app/private/categories/page.tsx): a cursor over the categories
    moved by buttons or swipes, and a three-screen stack (category, its lists, the
    confirmation of one list) that `handleBack` unwinds. Database replies are parameters. */
module CategoryBrowser {
  import opened Wrappers

  datatype Category = Category(id: string, name: string, icon: string, description: Option<string>)

  datatype ListSummary = ListSummary(id: string, title: string, description: Option<string>, sourceUrl: Option<string>)

  /** The page state the handlers read and write. */
  datatype Browser = Browser(
    categories: seq<Category>,
    index: int,
    lists: seq<ListSummary>,
    showLists: bool,
    selectedList: Option<ListSummary>,
    showConfirmation: bool,
    roundId: Option<string>)

  /** The screen the page renders. */
  datatype Screen = CategoryScreen | ListsScreen | ConfirmationScreen

  /** Confirmation needs both the flag and a selected list; otherwise the lists screen
      when it is shown; otherwise the category screen. */
  function ScreenOf(b: Browser): Screen {
    if b.showConfirmation && b.selectedList.Some? then ConfirmationScreen
    else if b.showLists then ListsScreen
    else CategoryScreen
  }

  /** The cursor points at a category, or stays at 0 when there is none. */
  ghost predicate IndexInRange(b: Browser) {
    0 <= b.index && (b.index < |b.categories| || b.index == 0)
  }

  /** The states the handlers can reach: the cursor is in range and a list is selected
      exactly while its confirmation is shown. */
  ghost predicate WellFormed(b: Browser) {
    IndexInRange(b) && (b.showConfirmation <==> b.selectedList.Some?)
  }

  /** The state after a successful move: the cursor at `i` and the list and confirmation
      screens closed. */
  function MovedTo(b: Browser, i: int): Browser {
    b.(index := i, showLists := false, selectedList := None, showConfirmation := false)
  }

  /** `handleNextCategory`: advance unless the cursor is on the last category. */
  function NextCategory(b: Browser): (r: Browser)
    ensures b.index < |b.categories| - 1 ==> r == MovedTo(b, b.index + 1)
    ensures b.index >= |b.categories| - 1 ==> r == b
    ensures r.categories == b.categories
    ensures IndexInRange(b) ==> IndexInRange(r)
  {
    if b.index < |b.categories| - 1 then MovedTo(b, b.index + 1) else b
  }

  /** `handlePreviousCategory`: go back unless the cursor is on the first category. */
  function PreviousCategory(b: Browser): (r: Browser)
    ensures b.index > 0 ==> r == MovedTo(b, b.index - 1)
    ensures b.index <= 0 ==> r == b
    ensures r.categories == b.categories
    ensures IndexInRange(b) ==> IndexInRange(r)
  {
    if b.index > 0 then MovedTo(b, b.index - 1) else b
  }

  /** A move forward that happened is undone by a move back: the cursor returns and the
      screens stay closed. */
  lemma NextThenPreviousReturns(b: Browser)
    requires 0 <= b.index < |b.categories| - 1
    ensures PreviousCategory(NextCategory(b)) == MovedTo(b, b.index)
  {
  }

  /** At the last category "next" changes nothing; at the first, "previous" changes nothing. */
  lemma MovesAtTheEndsAreNoOps(b: Browser)
    requires IndexInRange(b) && |b.categories| > 0
    ensures b.index == |b.categories| - 1 ==> NextCategory(b) == b
    ensures b.index == 0 ==> PreviousCategory(b) == b
  {
  }

  // ----- swipes -----

  /** `minSwipeDistance`, in pixels. */
  const MinSwipeDistance: real := 50.0

  /** The recorded start and end `clientX` coordinates of a touch, in (possibly
      fractional) pixels, `null` until set. */
  datatype Touch = Touch(start: Option<real>, end: Option<real>)

  /** A coordinate JavaScript treats as true: present and not 0. */
  predicate Truthy(x: Option<real>) {
    x.Some? && x.value != 0.0
  }

  datatype Gesture = SwipeNext | SwipePrevious | NoSwipe

  /** `onTouchEnd`'s decision: a leftward travel of more than 50 pixels means "next", a
      rightward one "previous"; a missing or zero coordinate means nothing. */
  function ClassifySwipe(t: Touch): (g: Gesture)
    ensures !Truthy(t.start) || !Truthy(t.end) ==> g == NoSwipe
    ensures Truthy(t.start) && Truthy(t.end) ==>
      && (g == SwipeNext <==> t.start.value - t.end.value > MinSwipeDistance)
      && (g == SwipePrevious <==> t.start.value - t.end.value < -MinSwipeDistance)
  {
    if !Truthy(t.start) || !Truthy(t.end) then NoSwipe
    else
      var distance := t.start.value - t.end.value;
      if distance > MinSwipeDistance then SwipeNext
      else if distance < -MinSwipeDistance then SwipePrevious
      else NoSwipe
  }

  /** Reversing a swipe's direction swaps "next" and "previous". */
  lemma SwipeIsSymmetric(a: real, z: real)
    ensures ClassifySwipe(Touch(Some(a), Some(z))) == SwipeNext
        <==> ClassifySwipe(Touch(Some(z), Some(a))) == SwipePrevious
  {
  }

  /** `onTouchStart`: a new start coordinate and no end yet. */
  function TouchStart(t: Touch, x: real): Touch {
    Touch(Some(x), None)
  }

  /** `onTouchMove`: the latest end coordinate. */
  function TouchMove(t: Touch, x: real): Touch {
    t.(end := Some(x))
  }

  /** `onTouchEnd`: move the cursor as the gesture says. */
  function TouchEnd(b: Browser, t: Touch): (r: Browser)
    ensures ClassifySwipe(t) == NoSwipe ==> r == b
    ensures ClassifySwipe(t) == SwipeNext ==> r == NextCategory(b)
    ensures ClassifySwipe(t) == SwipePrevious ==> r == PreviousCategory(b)
  {
    match ClassifySwipe(t)
    case SwipeNext => NextCategory(b)
    case SwipePrevious => PreviousCategory(b)
    case NoSwipe => b
  }

  /** A tap (a touch that never moved) never changes the category, and neither does a
      swipe of at most 50 pixels. */
  lemma ShortTouchesDoNotNavigate(b: Browser, t: Touch, x: real, y: real)
    ensures TouchEnd(b, TouchStart(t, x)) == b
    ensures -MinSwipeDistance <= x - y <= MinSwipeDistance ==>
      TouchEnd(b, TouchMove(TouchStart(t, x), y)) == b
  {
  }

  /** A touch that starts and ends at non-zero coordinates more than 50 pixels apart
      moves one category: towards the next when the finger travelled left, towards the
      previous when it travelled right. */
  lemma LongSwipesNavigate(b: Browser, t: Touch, x: real, y: real)
    requires x != 0.0 && y != 0.0
    ensures x - y > MinSwipeDistance ==> TouchEnd(b, TouchMove(TouchStart(t, x), y)) == NextCategory(b)
    ensures x - y < -MinSwipeDistance ==> TouchEnd(b, TouchMove(TouchStart(t, x), y)) == PreviousCategory(b)
  {
  }

  // ----- the screen stack -----

  /** `handleSelectCategory`: with a current category, a successful fetch shows its lists;
      a failed fetch leaves the page as it was. */
  function SelectCategory(b: Browser, reply: Reply<seq<ListSummary>>): (r: Browser)
    ensures !(0 <= b.index < |b.categories|) || reply.Err? ==> r == b
    ensures 0 <= b.index < |b.categories| && reply.Ok? ==>
      r == b.(lists := reply.rows, showLists := true)
  {
    if !(0 <= b.index < |b.categories|) then b
    else match reply
      case Err(_) => b
      case Ok(rows) => b.(lists := rows, showLists := true)
  }

  /** `handleSelectList`: remember the list and ask for confirmation. */
  function SelectList(b: Browser, l: ListSummary): (r: Browser)
    ensures r.selectedList == Some(l) && r.showConfirmation
    ensures ScreenOf(r) == ConfirmationScreen
    ensures r.index == b.index && r.showLists == b.showLists && r.lists == b.lists
    ensures r.categories == b.categories && r.roundId == b.roundId
  {
    b.(selectedList := Some(l), showConfirmation := true)
  }

  /** `handleBack`: leave the confirmation (dropping the selection), else leave the
      lists, else do nothing. */
  function Back(b: Browser): (r: Browser)
    ensures b.showConfirmation ==> r == b.(showConfirmation := false, selectedList := None)
    ensures !b.showConfirmation && b.showLists ==> r == b.(showLists := false)
    ensures !b.showConfirmation && !b.showLists ==> r == b
  {
    if b.showConfirmation then b.(showConfirmation := false, selectedList := None)
    else if b.showLists then b.(showLists := false)
    else b
  }

  /** In every reachable state "back" pops exactly one screen: confirmation returns to
      the lists, the lists return to the category, and the category screen stays. */
  lemma BackPopsOneScreen(b: Browser)
    requires WellFormed(b)
    ensures ScreenOf(b) == ConfirmationScreen ==>
      ScreenOf(Back(b)) == (if b.showLists then ListsScreen else CategoryScreen)
    ensures ScreenOf(b) == ListsScreen ==> ScreenOf(Back(b)) == CategoryScreen
    ensures ScreenOf(b) == CategoryScreen ==> Back(b) == b
    ensures WellFormed(Back(b))
  {
  }

  /** The user actions of the page. */
  datatype Action =
    | PressNext
    | PressPrevious
    | Swipe(touch: Touch)
    | ViewLists(reply: Reply<seq<ListSummary>>)
    | PickList(list: ListSummary)
    | PressBack

  function Step(b: Browser, a: Action): Browser {
    match a
    case PressNext => NextCategory(b)
    case PressPrevious => PreviousCategory(b)
    case Swipe(t) => TouchEnd(b, t)
    case ViewLists(reply) => SelectCategory(b, reply)
    case PickList(l) => SelectList(b, l)
    case PressBack => Back(b)
  }

  function Run(b: Browser, actions: seq<Action>): Browser
    decreases |actions|
  {
    if |actions| == 0 then b else Run(Step(b, actions[0]), actions[1..])
  }

  /** Under any sequence of actions the categories are untouched, the cursor stays
      within them and the selection is present exactly while confirmation is shown. */
  lemma {:induction false} RunKeepsWellFormed(b: Browser, actions: seq<Action>)
    requires WellFormed(b)
    ensures WellFormed(Run(b, actions))
    ensures Run(b, actions).categories == b.categories
    decreases |actions|
  {
    if |actions| > 0 {
      var next := Step(b, actions[0]);
      assert WellFormed(next) && next.categories == b.categories;
      RunKeepsWellFormed(next, actions[1..]);
    }
  }

  // ----- loading and confirming -----

  /** The round id the page works with: the `roundId` query parameter when non-empty,
      else the stored `currentRoundId` when non-empty. */
  function ResolveRoundId(param: Option<string>, stored: Option<string>): (r: Option<string>)
    ensures r.Some? ==> r.value != "" && (r == param || r == stored)
    ensures param.Some? && param.value != "" ==> r == param
    ensures r.None? <==> (param.None? || param.value == "") && (stored.None? || stored.value == "")
  {
    if param.Some? && param.value != "" then param
    else if stored.Some? && stored.value != "" then stored
    else None
  }

  /** The page as it is after loading: cursor at 0, nothing open, and the fetched
      categories kept only when the fetch returned some. */
  function Load(param: Option<string>, stored: Option<string>, reply: Reply<seq<Category>>): (r: Browser)
    ensures WellFormed(r) && ScreenOf(r) == CategoryScreen
    ensures r.categories == (if reply.Ok? then reply.rows else [])
    ensures r.index == 0 && r.roundId == ResolveRoundId(param, stored)
  {
    var cats := if reply.Ok? && |reply.rows| > 0 then reply.rows else [];
    Browser(cats, 0, [], false, None, false, ResolveRoundId(param, stored))
  }

  /** The confirmation outcome: the `game_rounds` update issued and the route opened. */
  datatype Confirmation = NothingToConfirm | Confirmed(listId: string, roundId: string, route: string)

  /** `handleConfirmSelection`: without a selected list and a non-empty round id nothing
      happens; otherwise the round is updated and the play route opens whether or not
      the update failed. */
  function ConfirmSelection(b: Browser, updateError: Option<string>): (r: Confirmation)
    ensures r == NothingToConfirm <==> b.selectedList.None? || b.roundId.None? || b.roundId.value == ""
    ensures r.Confirmed? ==>
      r.listId == b.selectedList.value.id && r.roundId == b.roundId.value
      && r.route == "/game/play/" + r.listId + "?roundId=" + r.roundId
  {
    if b.selectedList.None? || b.roundId.None? || b.roundId.value == "" then NothingToConfirm
    else
      var listId := b.selectedList.value.id;
      var roundId := b.roundId.value;
      var route := "/game/play/" + listId + "?roundId=" + roundId;
      match updateError
      case Some(_) => Confirmed(listId, roundId, route)
      case None => Confirmed(listId, roundId, route)
  }

  /** The outcome of confirming does not depend on whether the update succeeded. */
  lemma ConfirmIgnoresUpdateResult(b: Browser, e1: Option<string>, e2: Option<string>)
    ensures ConfirmSelection(b, e1) == ConfirmSelection(b, e2)
  {
  }
}
