/** The state of the leaderboard component (src/SteamRankKorea.jsx): the selected date, the
    loaded ranking list, the search text, the suggestions, the registry of rendered list
    items keyed by `steam_appid`, and the scroll requests made so far. */
module RankView {
  import opened Options
  import opened JsValues
  import opened Suggestions

  const ApiUrl: string := "https://steamrank-backend.onrender.com/api/rankings"

  /** The URL `fetchData` requests for a date. */
  function RankingsUrl(date: string): string
  {
    ApiUrl + "?date=" + date
  }

  /** The date can be read back from the URL requested for it. */
  lemma RankingsUrlDeterminesDate(date: string)
    ensures |RankingsUrl(date)| == |ApiUrl| + 6 + |date|
    ensures RankingsUrl(date)[|ApiUrl| + 6..] == date
  {
  }

  /** Different dates are requested at different URLs. */
  lemma RankingsUrlsDiffer(d1: string, d2: string)
    requires d1 != d2
    ensures RankingsUrl(d1) != RankingsUrl(d2)
  {
    RankingsUrlDeterminesDate(d1);
    RankingsUrlDeterminesDate(d2);
  }

  /** A rendered list item: the handle `scrollIntoView` is called on. */
  datatype Element = Element(node: nat)

  /** How the awaited request of `fetchData` for `url` ended: with the parsed JSON array,
      or with a thrown error (the request failed or the body was not JSON). */
  datatype FetchOutcome = Resolved(url: string, data: seq<Game>) | Rejected(url: string)

  /** The registry once React has called the callback of every item of the previous
      commit with `null`. Each callback is an arrow created afresh by each render, so
      React detaches every old one. Only the items of the previous commit hold an element,
      so every id ends up holding null, and no id is removed. */
  function Detached(refs: map<nat, Option<Element>>): (r: map<nat, Option<Element>>)
    ensures r.Keys == refs.Keys
    ensures forall id :: id in r ==> r[id] == None
  {
    map id | id in refs :: None
  }

  /** The registry after one commit of a render of `games`: first every old callback is
      called with `null`, then the new callbacks are called in list order, the i-th item
      being rendered as `elements[i]`. */
  function RefsAfterRender(refs: map<nat, Option<Element>>, games: seq<Game>, elements: seq<Element>)
    : (r: map<nat, Option<Element>>)
    requires |games| == |elements|
    ensures r.Keys == refs.Keys + set j | 0 <= j < |games| :: games[j].steamAppid
    decreases |games|
  {
    if games == [] then Detached(refs)
    else
      var n := |games| - 1;
      var before := RefsAfterRender(refs, games[..n], elements[..n]);
      assert (set j | 0 <= j < |games| :: games[j].steamAppid) ==
             (set j | 0 <= j < n :: games[..n][j].steamAppid) + {games[n].steamAppid};
      before[games[n].steamAppid := Some(elements[n])]
  }

  /** After a render every listed entry's id resolves to an element. */
  lemma {:induction false} RenderRegistersEveryEntry(refs: map<nat, Option<Element>>, games: seq<Game>, elements: seq<Element>)
    requires |games| == |elements|
    ensures forall j :: 0 <= j < |games| ==>
              games[j].steamAppid in RefsAfterRender(refs, games, elements) &&
              RefsAfterRender(refs, games, elements)[games[j].steamAppid].Some?
    decreases |games|
  {
    if games != [] {
      var n := |games| - 1;
      RenderRegistersEveryEntry(refs, games[..n], elements[..n]);
      forall j | 0 <= j < n ensures games[..n][j] == games[j] { }
    }
  }

  /** An id listed more than once resolves to the element of its last occurrence. */
  lemma {:induction false} RenderLastOccurrenceWins(refs: map<nat, Option<Element>>, games: seq<Game>, elements: seq<Element>, j: nat)
    requires |games| == |elements| && j < |games|
    requires forall k :: j < k < |games| ==> games[k].steamAppid != games[j].steamAppid
    ensures games[j].steamAppid in RefsAfterRender(refs, games, elements)
    ensures RefsAfterRender(refs, games, elements)[games[j].steamAppid] == Some(elements[j])
    decreases |games|
  {
    var n := |games| - 1;
    var before := RefsAfterRender(refs, games[..n], elements[..n]);
    assert RefsAfterRender(refs, games, elements) == before[games[n].steamAppid := Some(elements[n])];
    if j < n {
      assert games[n].steamAppid != games[j].steamAppid;
      assert games[..n][j] == games[j] && elements[..n][j] == elements[j];
      RenderLastOccurrenceWins(refs, games[..n], elements[..n], j);
    }
  }

  /** An id not listed is known to the registry exactly when it was before, and then it
      holds null: an entry dropped from the list no longer resolves to an element. */
  lemma {:induction false} RenderKeepsUnlisted(refs: map<nat, Option<Element>>, games: seq<Game>, elements: seq<Element>, id: nat)
    requires |games| == |elements|
    requires forall j :: 0 <= j < |games| ==> games[j].steamAppid != id
    ensures id in RefsAfterRender(refs, games, elements) <==> id in refs
    ensures id in refs ==> RefsAfterRender(refs, games, elements)[id] == None
    decreases |games|
  {
    if games != [] {
      var n := |games| - 1;
      forall j | 0 <= j < n ensures games[..n][j] == games[j] { }
      RenderKeepsUnlisted(refs, games[..n], elements[..n], id);
    }
  }

  class SteamRankKorea {
    var date: string
    var games: seq<Game>
    var search: string
    var filtered: seq<Game>
    var itemRefs: map<nat, Option<Element>>
    var scrollRequests: seq<Element>

    /** The search effect has run: the suggestions are those of the current search text
        and the current list. */
    ghost predicate Valid()
      reads this
    {
      filtered == Suggest(search, games)
    }

    /** The element registered for `appid`, when there is one (`if (el)` in `scrollToGame`). */
    function Anchor(appid: nat): (r: Option<Element>)
      reads this
      ensures r.Some? <==> appid in itemRefs && itemRefs[appid].Some?
      ensures r.Some? ==> itemRefs[appid] == r
    {
      if appid in itemRefs then itemRefs[appid] else None
    }

    /** The initial state: every `useState` and the `useRef` registry are empty. */
    constructor ()
      ensures Valid()
      ensures date == "" && games == [] && search == "" && filtered == []
      ensures itemRefs == map[] && scrollRequests == []
    {
      date, games, search, filtered := "", [], "", [];
      itemRefs, scrollRequests := map[], [];
    }

    /** The date input's `onChange`, and the mount effect that stores today's date (the
        clock reading is the argument). */
    method SetDate(d: string)
      modifies this
      ensures date == d
      ensures games == old(games) && search == old(search) && filtered == old(filtered)
      ensures itemRefs == old(itemRefs) && scrollRequests == old(scrollRequests)
    {
      date := d;
    }

    /** `fetchData` once its request has settled. A resolved request replaces the list
        wholesale with the parsed array, and the search effect then recomputes the
        suggestions; a thrown error is caught and changes nothing. The URL the response
        answers is never compared with the date selected now: whichever response settles
        last is kept. */
    method FetchData(outcome: FetchOutcome)
      requires Valid()
      modifies this
      ensures Valid()
      ensures outcome.Resolved? ==> games == outcome.data
      ensures outcome.Rejected? ==> games == old(games) && filtered == old(filtered)
      ensures date == old(date) && search == old(search)
      ensures itemRefs == old(itemRefs) && scrollRequests == old(scrollRequests)
    {
      match outcome
      case Resolved(_, data) =>
        games := data;
        filtered := Suggest(search, games);
      case Rejected(_) =>
    }

    /** The search input's `onChange`, followed by the search effect. */
    method SetSearch(text: string)
      modifies this
      ensures Valid()
      ensures search == text && filtered == Suggest(text, games)
      ensures date == old(date) && games == old(games)
      ensures itemRefs == old(itemRefs) && scrollRequests == old(scrollRequests)
    {
      search := text;
      filtered := Suggest(search, games);
    }

    /** The `ref` callback of one list item: React passes the element when the item is
        mounted and `null` when it is unmounted, and the callback stores either. */
    method SetItemRef(appid: nat, el: Option<Element>)
      modifies this`itemRefs
      ensures itemRefs == old(itemRefs)[appid := el]
    {
      itemRefs := itemRefs[appid := el];
    }

    /** The ref callbacks of one commit of the list: the previous items' callbacks with
        `null`, then the new ones with their elements, in list order. */
    method AttachRefs(elements: seq<Element>)
      requires |elements| == |games|
      modifies this`itemRefs
      ensures itemRefs == RefsAfterRender(old(itemRefs), games, elements)
    {
      itemRefs := Detached(itemRefs);
      var i := 0;
      while i < |games|
        invariant 0 <= i <= |games|
        invariant itemRefs == RefsAfterRender(old(itemRefs), games[..i], elements[..i])
      {
        assert games[..i + 1][..i] == games[..i];
        assert elements[..i + 1][..i] == elements[..i];
        SetItemRef(games[i].steamAppid, Some(elements[i]));
        i := i + 1;
      }
      assert games[..i] == games && elements[..i] == elements;
    }

    /** `scrollToGame`: a scroll request for the registered element, or nothing at all
        when no element is registered for the id. */
    method ScrollToGame(appid: nat)
      modifies this`scrollRequests
      ensures Anchor(appid).Some? ==> scrollRequests == old(scrollRequests) + [Anchor(appid).value]
      ensures Anchor(appid).None? ==> scrollRequests == old(scrollRequests)
    {
      var el := Anchor(appid);
      if el.Some? {
        scrollRequests := scrollRequests + [el.value];
      }
    }

    /** The `onClick` of the i-th suggestion: scroll to its entry, then clear the search
        text and the suggestions. */
    method SelectSuggestion(i: nat)
      requires Valid() && i < |filtered|
      modifies this
      ensures Valid()
      ensures search == "" && filtered == []
      ensures var id := old(filtered[i]).steamAppid;
              scrollRequests == old(scrollRequests) + (if old(Anchor(id)).Some? then [old(Anchor(id)).value] else [])
      ensures date == old(date) && games == old(games) && itemRefs == old(itemRefs)
    {
      ScrollToGame(filtered[i].steamAppid);
      search := "";
      filtered := [];
    }
  }

  /** Two requests are issued, for `d1` and then `d2`, and the answer for `d1` settles
      last: the list shown is the one requested at `d1`'s URL while the selected date is
      `d2`, whose URL is a different one. */
  method StaleResponseIsKept(d1: string, d2: string, forD1: seq<Game>, forD2: seq<Game>)
    returns (shown: seq<Game>, selected: string, shownUrl: string)
    requires d1 != d2
    ensures shown == forD1 && selected == d2
    ensures shownUrl == RankingsUrl(d1) && shownUrl != RankingsUrl(selected)
  {
    var view := new SteamRankKorea();
    view.SetDate(d1);
    var first := RankingsUrl(view.date);
    view.SetDate(d2);
    var second := RankingsUrl(view.date);
    view.FetchData(Resolved(second, forD2));
    var last := Resolved(first, forD1);
    view.FetchData(last);
    RankingsUrlsDiffer(d1, d2);
    shown, selected, shownUrl := view.games, view.date, last.url;
  }

  /** A failed request after a successful one keeps the list of the successful one. */
  method FailureKeepsList(data: seq<Game>, search: string)
    returns (shown: seq<Game>, suggestions: seq<Game>)
    ensures shown == data && suggestions == Suggest(search, data)
  {
    var view := new SteamRankKorea();
    view.SetSearch(search);
    var url := RankingsUrl(view.date);
    view.FetchData(Resolved(url, data));
    view.FetchData(Rejected(url));
    shown, suggestions := view.games, view.filtered;
  }

  /** The list [A (10)] is rendered, then replaced by [B (20)] and rendered again: A's
      item is gone, so a scroll to id 10 does nothing. */
  method DroppedEntryScrollsNowhere(a: Game, b: Game) returns (scrolled: seq<Element>)
    requires a.steamAppid == 10 && b.steamAppid == 20
    ensures scrolled == []
  {
    var view := new SteamRankKorea();
    var url := RankingsUrl(view.date);
    view.FetchData(Resolved(url, [a]));
    view.AttachRefs([Element(0)]);
    view.FetchData(Resolved(url, [b]));
    var before := view.itemRefs;
    view.AttachRefs([Element(1)]);
    RenderKeepsUnlisted(before, [b], [Element(1)], 10);
    view.ScrollToGame(10);
    scrolled := view.scrollRequests;
  }

  /** The list [Alpha (10), Beta (20)] is rendered, "al" is typed and the one suggestion
      is clicked: it scrolls to Alpha's item and leaves no search text and no
      suggestions. A second click target with no rendered item scrolls nowhere. */
  method SelectionExample(alpha: Game, beta: Game)
    returns (suggested: seq<Game>, scrolled: seq<Element>, search: string, remaining: seq<Game>)
    requires alpha.steamAppid == 10 && alpha.name == "Alpha"
    requires beta.steamAppid == 20 && beta.name == "Beta"
    ensures suggested == [alpha]
    ensures scrolled == [Element(0)] && search == "" && remaining == []
  {
    var view := new SteamRankKorea();
    view.FetchData(Resolved(RankingsUrl(view.date), [alpha, beta]));
    view.AttachRefs([Element(0), Element(1)]);
    RenderLastOccurrenceWins(map[], [alpha, beta], [Element(0), Element(1)], 0);
    RenderKeepsUnlisted(map[], [alpha, beta], [Element(0), Element(1)], 30);
    AlphaBetaExample(alpha, beta, "al");
    view.SetSearch("al");
    suggested := view.filtered;
    view.SelectSuggestion(0);
    view.ScrollToGame(30);
    scrolled, search, remaining := view.scrollRequests, view.search, view.filtered;
  }
}
