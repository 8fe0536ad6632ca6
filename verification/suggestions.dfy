/** The search suggestions of the leaderboard component (src/SteamRankKorea.jsx): the
    ranking entries whose name contains the typed text, ignoring case, in rank order,
    at most six of them. */
module Suggestions {
  import opened Options
  import opened Sequences
  import opened JsValues

  /** One ranking entry as the API sends it. `steam_appid` is a number; the component
      uses it as a property key, and distinct numbers give distinct keys. */
  datatype Game = Game(
    steamAppid: nat,
    name: string,
    price: JsValue,
    players: JsValue,
    profileImg: JsValue)

  /** The most suggestions shown at once (`res.slice(0, 6)`). */
  const MaxSuggestions: nat := 6

  /** `sub` occurs in `s` at position `i`. */
  ghost predicate OccursAt(s: string, sub: string, i: int)
  {
    0 <= i && i + |sub| <= |s| && s[i..i + |sub|] == sub
  }

  /** `String.prototype.includes`. */
  function Includes(s: string, sub: string): (r: bool)
    ensures r <==> exists i :: OccursAt(s, sub, i)
    decreases |s|
  {
    if sub <= s then
      assert OccursAt(s, sub, 0);
      true
    else if s == [] then
      assert forall i :: !OccursAt(s, sub, i);
      false
    else
      var r := Includes(s[1..], sub);
      assert forall i :: OccursAt(s, sub, i) && i > 0 ==> OccursAt(s[1..], sub, i - 1) by {
        forall i | OccursAt(s, sub, i) && i > 0 ensures OccursAt(s[1..], sub, i - 1) {
          assert s[1..][i - 1..i - 1 + |sub|] == s[i..i + |sub|];
        }
      }
      assert !OccursAt(s, sub, 0);
      assert forall i :: OccursAt(s[1..], sub, i) ==> OccursAt(s, sub, i + 1) by {
        forall i | OccursAt(s[1..], sub, i) ensures OccursAt(s, sub, i + 1) {
          assert s[i + 1..i + 1 + |sub|] == s[1..][i..i + |sub|];
        }
      }
      r
  }

  /** `g.name.toLowerCase().includes(search.toLowerCase())`. */
  predicate NameMatches(g: Game, search: string)
  {
    Includes(JsLower(g.name), JsLower(search))
  }

  function MatchOf(search: string): Game -> Option<Game>
  {
    g => if NameMatches(g, search) then Some(g) else None
  }

  /** `games.filter(...)`: the entries whose name matches, in the list's order. */
  function Matches(games: seq<Game>, search: string): (r: seq<Game>)
    ensures |r| <= |games|
    ensures forall g :: g in r <==> g in games && NameMatches(g, search)
  {
    var r := Keep(games, MatchOf(search));
    assert forall g :: g in r <==> g in games && NameMatches(g, search) by {
      forall g ensures g in r <==> g in games && NameMatches(g, search) {
        KeepMembership(games, MatchOf(search), g);
        if g in r {
          var x :| x in games && MatchOf(search)(x) == Some(g);
          assert x == g;
        }
      }
    }
    r
  }

  /** The suggestion list the search effect stores in `filtered`: nothing when
      `search.trim()` is empty (IsBlank, see BlankIffTrimsToEmpty), else the first six
      matches. */
  function Suggest(search: string, games: seq<Game>): (r: seq<Game>)
    ensures |r| <= MaxSuggestions
    ensures IsBlank(search) ==> r == []
    ensures forall g :: g in r ==> g in games && NameMatches(g, search)
  {
    if IsBlank(search) then []
    else
      var res := Matches(games, search);
      if |res| <= MaxSuggestions then res else res[..MaxSuggestions]
  }

  /** A search that trims to nothing (empty or all whitespace) suggests nothing, whatever the list holds. */
  lemma BlankSearchSuggestsNothing(search: string, games: seq<Game>)
    requires JsTrim(search) == ""
    ensures Suggest(search, games) == []
  {
    BlankIffTrimsToEmpty(search);
  }

  /** A search that does not trim to nothing suggests the first matches, as many as
      there are up to six. */
  lemma SuggestionsAreFirstMatches(search: string, games: seq<Game>)
    requires JsTrim(search) != ""
    ensures var m := Matches(games, search);
            var n := if |m| < MaxSuggestions then |m| else MaxSuggestions;
            Suggest(search, games) == m[..n]
  {
    BlankIffTrimsToEmpty(search);
  }

  /** Whatever the search, the suggestions are a prefix of the matches, at most six long. */
  lemma SuggestionsArePrefix(search: string, games: seq<Game>)
    ensures |Suggest(search, games)| <= MaxSuggestions
    ensures |Suggest(search, games)| <= |Matches(games, search)|
    ensures Suggest(search, games) == Matches(games, search)[..|Suggest(search, games)|]
  {
  }

  /** Matches lists exactly the matching entries, in list order, keeping duplicates:
      its k-th element is the entry at position idx[k], the positions increase, and every
      position whose entry matches is among them. */
  lemma {:induction false} MatchesInOrder(games: seq<Game>, search: string) returns (idx: seq<nat>)
    ensures |idx| == |Matches(games, search)|
    ensures forall k :: 0 <= k < |idx| ==>
              idx[k] < |games| && games[idx[k]] == Matches(games, search)[k]
    ensures forall k, l :: 0 <= k < l < |idx| ==> idx[k] < idx[l]
    ensures forall j :: 0 <= j < |games| ==> (NameMatches(games[j], search) <==> j in idx)
  {
    idx := KeepIndices(games, MatchOf(search));
    var m := Matches(games, search);
    forall k | 0 <= k < |idx| ensures idx[k] < |games| && games[idx[k]] == m[k] {
      assert MatchOf(search)(games[idx[k]]) == Some(m[k]);
    }
    forall j | 0 <= j < |games| ensures NameMatches(games[j], search) <==> j in idx {
      assert MatchOf(search)(games[j]).Some? <==> NameMatches(games[j], search);
    }
  }

  /** Every suggestion is an entry of the list whose lower-cased name contains the
      lower-cased search text, there are at most six, and they keep list order: the k-th
      suggestion sits at position idx[k] of the list, and the positions increase. */
  lemma {:induction false} SuggestionsAreOrderedMatches(search: string, games: seq<Game>) returns (idx: seq<nat>)
    ensures |Suggest(search, games)| <= MaxSuggestions
    ensures |idx| == |Suggest(search, games)|
    ensures forall k :: 0 <= k < |idx| ==>
              idx[k] < |games| && games[idx[k]] == Suggest(search, games)[k] &&
              NameMatches(games[idx[k]], search)
    ensures forall k, l :: 0 <= k < l < |idx| ==> idx[k] < idx[l]
  {
    var all := MatchesInOrder(games, search);
    var r := Suggest(search, games);
    var m := Matches(games, search);
    SuggestionsArePrefix(search, games);
    idx := all[..|r|];
    forall k | 0 <= k < |idx|
      ensures idx[k] < |games| && games[idx[k]] == r[k] && NameMatches(games[idx[k]], search)
    {
      assert r[k] == m[k];
      assert idx[k] in all;
    }
  }

  /** The worked example: in [Alpha, Beta], the search "al" suggests Alpha alone. */
  lemma AlphaBetaExample(alpha: Game, beta: Game, search: string)
    requires alpha.name == "Alpha" && beta.name == "Beta" && search == "al"
    ensures Suggest(search, [alpha, beta]) == [alpha]
  {
    assert JsLower(search) == "al";
    assert JsLower(alpha.name)[..2] == "al";
    assert NameMatches(alpha, search);
    var b := JsLower(beta.name);
    assert b == "beta";
    forall i | 0 <= i && i + 2 <= |b| ensures !OccursAt(b, "al", i) {
      assert b[i] != 'a';
    }
    assert !NameMatches(beta, search);
    assert [alpha, beta][1..] == [beta];
    assert Matches([beta], search) == [];
    assert Matches([alpha, beta], search) == [alpha];
    assert search[0] == 'a';
    assert !IsBlank(search);
  }
}
