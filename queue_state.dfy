/** The queue document stored under "state" and the transitions the routes
    apply to it: call next (index.js:190-197), recall previous
    (index.js:207-212), queue reset (index.js:221-225) and the centre image
    (index.js:240-249). */
module QueueState {
  import opened Wrappers
  import opened JsText

  /** A called ticket: `{number, gender, by, at}`, with `by` and `at` named calledBy and calledAt. */
  datatype Item = Item(number: string, gender: string, calledBy: string, calledAt: string)

  datatype State = State(
    current: Option<Item>,
    history: seq<Item>,        // every call, latest first
    men: seq<Item>,            // calls whose gender is not "female", latest first
    women: seq<Item>,          // calls whose gender is "female", latest first
    ticker: string,
    displayMessage: string,
    centerImage: Option<string>)

  const HistoryCap := 200
  const LaneCap := 50
  const Female := "female"
  const ImagePrefix := "data:image/"

  /** The document `ensureSchema` stores and `getState` falls back to: no
      ticket called, empty lists and texts, no centre image. */
  function Initial(): (st: State)
    ensures st.current.None? && st.history == [] && st.men == [] && st.women == []
    ensures st.ticker == "" && st.displayMessage == "" && st.centerImage.None?
    ensures WellFormed(st)
  {
    State(None, [], [], [], "", "", None)
  }

  function Min(a: int, b: int): int {
    if a <= b then a else b
  }

  /** `[item, ...s].slice(0, cap)`: the item goes in front, the rest follow in
      order, and once the list is full the oldest entry falls off the end. */
  function Prepend(item: Item, s: seq<Item>, cap: nat): (r: seq<Item>)
    requires cap >= 1
    ensures |r| == Min(cap, |s| + 1)
    ensures r[0] == item
    ensures forall i :: 1 <= i < |r| ==> r[i] == s[i - 1]
  {
    ([item] + s)[..Min(cap, |s| + 1)]
  }

  /** The shape every stored document keeps: the lists are within their
      caps, each lane holds only its own gender, and `current` is the newest
      or second-newest call (empty exactly when there is no history). */
  predicate WellFormed(st: State) {
    && |st.history| <= HistoryCap && |st.men| <= LaneCap && |st.women| <= LaneCap
    && (forall i :: 0 <= i < |st.women| ==> st.women[i].gender == Female)
    && (forall i :: 0 <= i < |st.men| ==> st.men[i].gender != Female)
    && (st.history == [] <==> st.current.None?)
    && (st.current.Some? ==>
          st.current == Some(st.history[0]) || (|st.history| >= 2 && st.current == Some(st.history[1])))
  }

  /** Call next: the item becomes `current` and the newest history entry, and
      goes in front of its gender's lane; the other lane and the display
      fields are untouched. */
  function CallNext(st: State, item: Item): (r: State)
    ensures r.current == Some(item)
    ensures r.history == Prepend(item, st.history, HistoryCap)
    ensures item.gender == Female ==> r.women == Prepend(item, st.women, LaneCap) && r.men == st.men
    ensures item.gender != Female ==> r.men == Prepend(item, st.men, LaneCap) && r.women == st.women
    ensures r.ticker == st.ticker && r.displayMessage == st.displayMessage
    ensures r.centerImage == st.centerImage
    ensures WellFormed(st) ==> WellFormed(r)
  {
    var called := st.(current := Some(item), history := Prepend(item, st.history, HistoryCap));
    if item.gender == Female then called.(women := Prepend(item, st.women, LaneCap))
    else called.(men := Prepend(item, st.men, LaneCap))
  }

  /** Recall previous: with fewer than two history entries nothing changes;
      otherwise `current` becomes the second-newest entry and nothing else
      changes (history keeps its order). */
  function Recall(st: State): (r: State)
    ensures r.history == st.history && r.men == st.men && r.women == st.women
    ensures r.ticker == st.ticker && r.displayMessage == st.displayMessage
    ensures r.centerImage == st.centerImage
    ensures |st.history| < 2 ==> r == st
    ensures |st.history| >= 2 ==> r.current == Some(st.history[1])
    ensures WellFormed(st) ==> WellFormed(r)
  {
    if |st.history| < 2 then st else st.(current := Some(st.history[1]))
  }

  /** Queue reset: no current ticket and empty history and lanes; the ticker,
      display message and centre image survive. */
  function ResetQueue(st: State): (r: State)
    ensures r.current.None? && r.history == [] && r.men == [] && r.women == []
    ensures r.ticker == st.ticker && r.displayMessage == st.displayMessage
    ensures r.centerImage == st.centerImage
    ensures WellFormed(r)
  {
    st.(current := None, history := [], men := [], women := [])
  }

  /** The centre image accepted by the POST route: present, a string, and a
      data URL of an image, that is the prefix "data:image/" and then anything. */
  function ValidImage(image: Option<string>): (ok: bool)
    ensures ok ==> image.Some? && |ImagePrefix| <= |image.value|
                   && image.value == ImagePrefix + image.value[|ImagePrefix|..]
  {
    image.Some? && image.value != "" && StartsWith(image.value, ImagePrefix)
  }

  /** Conversely, every string that starts with the prefix is accepted,
      whatever follows it (an empty rest included). */
  lemma DataUrlAccepted(rest: string)
    ensures ValidImage(Some(ImagePrefix + rest))
  {
    assert (ImagePrefix + rest)[..|ImagePrefix|] == ImagePrefix;
  }

  /** Setting or clearing the centre image touches that field alone. */
  function WithCenterImage(st: State, image: Option<string>): (r: State)
    ensures r.centerImage == image
    ensures r.(centerImage := st.centerImage) == st
    ensures WellFormed(st) ==> WellFormed(r)
  {
    st.(centerImage := image)
  }

  // ----- sequences of calls -----

  /** The document after calling every item of `items`, in order. */
  function CallAll(st: State, items: seq<Item>): State {
    if items == [] then st else CallNext(CallAll(st, items[..|items| - 1]), items[|items| - 1])
  }

  /** After a run of calls the history holds the newest calls latest first,
      followed by what was there before, and never more than 200 entries. */
  lemma CallAllHistory(st: State, items: seq<Item>)
    requires |st.history| <= HistoryCap
    ensures var h := CallAll(st, items).history;
      && |h| == Min(HistoryCap, |st.history| + |items|)
      && (forall i :: 0 <= i < |h| && i < |items| ==> h[i] == items[|items| - 1 - i])
      && (forall i :: |items| <= i < |h| ==> h[i] == st.history[i - |items|])
  {
    CallAllIsLogged(st, items);
    LoggedShape(st.history, items);
  }

  /** The history list alone, after each of `items` has been prepended in turn. */
  function Logged(history: seq<Item>, items: seq<Item>): seq<Item> {
    if items == [] then history
    else Prepend(items[|items| - 1], Logged(history, items[..|items| - 1]), HistoryCap)
  }

  /** A run of calls changes the history exactly as `Logged` does. */
  lemma {:induction false} CallAllIsLogged(st: State, items: seq<Item>)
    ensures CallAll(st, items).history == Logged(st.history, items)
  {
    if items != [] {
      CallAllIsLogged(st, items[..|items| - 1]);
    }
  }

  /** Newest first, then the older entries, cut at the cap. */
  lemma {:induction false} LoggedShape(history: seq<Item>, items: seq<Item>)
    requires |history| <= HistoryCap
    ensures var h := Logged(history, items);
      && |h| == Min(HistoryCap, |history| + |items|)
      && (forall i :: 0 <= i < |h| && i < |items| ==> h[i] == items[|items| - 1 - i])
      && (forall i :: |items| <= i < |h| ==> h[i] == history[i - |items|])
  {
    if items != [] {
      var init, last := items[..|items| - 1], items[|items| - 1];
      LoggedShape(history, init);
      var before := Logged(history, init);
      var h := Logged(history, items);
      forall i | 1 <= i < |h| && i < |items| ensures h[i] == items[|items| - 1 - i] {
        assert h[i] == before[i - 1] == init[|init| - 1 - (i - 1)];
      }
      forall i | |items| <= i < |h| ensures h[i] == history[i - |items|] {
        assert h[i] == before[i - 1];
      }
    }
  }

  /** More calls than the cap leave a full history of exactly the last 200 calls. */
  lemma HistoryFullAfterManyCalls(st: State, items: seq<Item>)
    requires |st.history| <= HistoryCap && |items| >= HistoryCap
    ensures |CallAll(st, items).history| == HistoryCap
    ensures forall i :: 0 <= i < HistoryCap ==> CallAll(st, items).history[i] == items[|items| - 1 - i]
  {
    CallAllHistory(st, items);
  }

  /** A run of calls keeps the document well-formed and ends with the last call current. */
  lemma {:induction false} CallAllWellFormed(st: State, items: seq<Item>)
    requires WellFormed(st)
    ensures WellFormed(CallAll(st, items))
    ensures items != [] ==> CallAll(st, items).current == Some(items[|items| - 1])
  {
    if items != [] {
      CallAllWellFormed(st, items[..|items| - 1]);
    }
  }

  /** Call A, then call B, then recall: A is current again, and B stays the
      newest history entry. */
  lemma CallCallRecall(st: State, a: Item, b: Item)
    ensures Recall(CallNext(CallNext(st, a), b)).current == Some(a)
    ensures Recall(CallNext(CallNext(st, a), b)).history[0] == b
    ensures Recall(CallNext(CallNext(st, a), b)).history[1] == a
  {
  }

  /** Calling and then recalling brings back the newest history entry from
      before the call, which is the previous `current` only when that was
      the newest entry (not after an earlier recall). */
  lemma CallThenRecall(st: State, item: Item)
    requires WellFormed(st)
    ensures Recall(CallNext(st, item)).current ==
      if st.history == [] then Some(item) else Some(st.history[0])
    ensures st.history != [] ==>
      (Recall(CallNext(st, item)).current == st.current <==> st.current == Some(st.history[0]))
  {
  }

  /** Recalling twice is the same as recalling once: recall never reaches
      further back than the second-newest call. */
  lemma RecallIdempotent(st: State)
    ensures Recall(Recall(st)) == Recall(st)
  {
  }
}
