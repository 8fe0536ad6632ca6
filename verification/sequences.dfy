/** The optional value used for lookups and parses that may find nothing. */
module Options {
  datatype Option<+T> = None | Some(value: T)
}

/** Keeping, in order, the results of a partial function over a sequence: the shape
    shared by JavaScript's `filter` and by the skip-with-`continue` loops over file lines. */
module Sequences {
  import opened Options

  function Keep<A, B>(s: seq<A>, f: A -> Option<B>): (r: seq<B>)
    ensures |r| <= |s|
    decreases |s|
  {
    if s == [] then []
    else (if f(s[0]).Some? then [f(s[0]).value] else []) + Keep(s[1..], f)
  }

  /** Keeping distributes over concatenation. */
  lemma {:induction false} KeepAppend<A, B>(a: seq<A>, b: seq<A>, f: A -> Option<B>)
    ensures Keep(a + b, f) == Keep(a, f) + Keep(b, f)
    decreases |a|
  {
    if a != [] {
      assert (a + b)[1..] == a[1..] + b;
      KeepAppend(a[1..], b, f);
    } else {
      assert a + b == b;
    }
  }

  /** Keeping over a prefix extended by one element: the loop step of a skip-with-`continue`
      loop. */
  lemma KeepSnoc<A, B>(s: seq<A>, i: nat, f: A -> Option<B>)
    requires i < |s|
    ensures Keep(s[..i + 1], f) == Keep(s[..i], f) + (if f(s[i]).Some? then [f(s[i]).value] else [])
  {
    assert s[..i + 1] == s[..i] + [s[i]];
    KeepAppend(s[..i], [s[i]], f);
  }

  /** `idx` lists, in increasing order, exactly the positions of `s` where `f` yields a
      value, and `r` holds those values in the same order. */
  ghost predicate KeptAt<A, B>(s: seq<A>, f: A -> Option<B>, r: seq<B>, idx: seq<nat>)
  {
    |idx| == |r| &&
    (forall k :: 0 <= k < |idx| ==> idx[k] < |s| && f(s[idx[k]]) == Some(r[k])) &&
    (forall k, l :: 0 <= k < l < |idx| ==> idx[k] < idx[l]) &&
    (forall j :: 0 <= j < |s| ==> (f(s[j]).Some? <==> j in idx))
  }

  /** Keep returns the value of every position where `f` succeeds, in order, and nothing else. */
  lemma {:induction false} KeepIndices<A, B>(s: seq<A>, f: A -> Option<B>) returns (idx: seq<nat>)
    ensures KeptAt(s, f, Keep(s, f), idx)
    decreases |s|
  {
    if s == [] {
      idx := [];
    } else {
      var rest := KeepIndices(s[1..], f);
      var shifted := Shift(rest);
      var rr := Keep(s[1..], f);
      ShiftedIndices(s, f, rr, rest, shifted);
      if f(s[0]).Some? {
        idx := [0] + shifted;
        assert Keep(s, f) == [f(s[0]).value] + rr;
        KeptWithHead(s, f, rr, shifted, f(s[0]).value);
      } else {
        idx := shifted;
        KeptWithoutHead(s, f, rr, shifted);
      }
    }
  }

  /** The shifted positions of the tail, as ShiftedIndices leaves them. */
  ghost predicate KeptInTail<A, B>(s: seq<A>, f: A -> Option<B>, rr: seq<B>, shifted: seq<nat>)
  {
    s != [] && |shifted| == |rr| && 0 !in shifted &&
    (forall k :: 0 <= k < |shifted| ==> 0 < shifted[k] < |s| && f(s[shifted[k]]) == Some(rr[k])) &&
    (forall k, l :: 0 <= k < l < |shifted| ==> shifted[k] < shifted[l]) &&
    (forall j :: 1 <= j < |s| ==> (f(s[j]).Some? <==> j in shifted))
  }

  lemma KeptWithHead<A, B>(s: seq<A>, f: A -> Option<B>, rr: seq<B>, shifted: seq<nat>, v: B)
    requires KeptInTail(s, f, rr, shifted) && f(s[0]) == Some(v)
    ensures KeptAt(s, f, [v] + rr, [0] + shifted)
  {
    HeadValues(s, f, rr, shifted, v);
    HeadOrdered(shifted);
    HeadMembership(s, f, shifted);
  }

  lemma HeadValues<A, B>(s: seq<A>, f: A -> Option<B>, rr: seq<B>, shifted: seq<nat>, v: B)
    requires s != [] && f(s[0]) == Some(v) && |shifted| == |rr|
    requires forall k :: 0 <= k < |shifted| ==> shifted[k] < |s| && f(s[shifted[k]]) == Some(rr[k])
    ensures var idx, r := [0] + shifted, [v] + rr;
            forall k :: 0 <= k < |idx| ==> idx[k] < |s| && f(s[idx[k]]) == Some(r[k])
  {
    var idx, r := [0] + shifted, [v] + rr;
    forall k | 0 <= k < |idx| ensures idx[k] < |s| && f(s[idx[k]]) == Some(r[k]) {
      if k > 0 { assert idx[k] == shifted[k - 1] && r[k] == rr[k - 1]; }
    }
  }

  lemma HeadOrdered(shifted: seq<nat>)
    requires 0 !in shifted
    requires forall k, l :: 0 <= k < l < |shifted| ==> shifted[k] < shifted[l]
    ensures var idx := [0] + shifted;
            forall k, l :: 0 <= k < l < |idx| ==> idx[k] < idx[l]
  {
    var idx := [0] + shifted;
    forall k, l | 0 <= k < l < |idx| ensures idx[k] < idx[l] {
      assert idx[l] == shifted[l - 1];
      if k > 0 { assert idx[k] == shifted[k - 1]; }
    }
  }

  lemma HeadMembership<A, B>(s: seq<A>, f: A -> Option<B>, shifted: seq<nat>)
    requires s != [] && f(s[0]).Some?
    requires forall j :: 1 <= j < |s| ==> (f(s[j]).Some? <==> j in shifted)
    ensures forall j :: 0 <= j < |s| ==> (f(s[j]).Some? <==> j in [0] + shifted)
  {
  }

  lemma KeptWithoutHead<A, B>(s: seq<A>, f: A -> Option<B>, rr: seq<B>, shifted: seq<nat>)
    requires KeptInTail(s, f, rr, shifted) && rr == Keep(s[1..], f) && f(s[0]).None?
    ensures KeptAt(s, f, Keep(s, f), shifted)
  {
    assert Keep(s, f) == rr;
  }

  function Shift(idx: seq<nat>): (r: seq<nat>)
    ensures |r| == |idx| && forall k :: 0 <= k < |idx| ==> r[k] == idx[k] + 1
  {
    seq(|idx|, k requires 0 <= k < |idx| => idx[k] + 1)
  }

  /** The positions kept in `s[1..]`, shifted by one, are positions in `s`. */
  lemma ShiftedIndices<A, B>(s: seq<A>, f: A -> Option<B>, rr: seq<B>, rest: seq<nat>, shifted: seq<nat>)
    requires s != [] && KeptAt(s[1..], f, rr, rest) && shifted == Shift(rest)
    ensures KeptInTail(s, f, rr, shifted)
  {
    forall k | 0 <= k < |shifted| ensures 0 < shifted[k] < |s| && f(s[shifted[k]]) == Some(rr[k]) {
      assert s[shifted[k]] == s[1..][rest[k]];
    }
    forall j | 1 <= j < |s| ensures f(s[j]).Some? <==> j in shifted {
      assert s[j] == s[1..][j - 1];
      if j - 1 in rest {
        var k :| 0 <= k < |rest| && rest[k] == j - 1;
        assert shifted[k] == j;
      }
    }
  }

  /** A value is kept exactly when some element of `s` yields it. */
  lemma KeepMembership<A, B>(s: seq<A>, f: A -> Option<B>, y: B)
    ensures y in Keep(s, f) <==> exists x :: x in s && f(x) == Some(y)
  {
    var idx := KeepIndices(s, f);
    var r := Keep(s, f);
    if y in r {
      var k :| 0 <= k < |r| && r[k] == y;
      assert s[idx[k]] in s;
    }
    if exists x :: x in s && f(x) == Some(y) {
      var x :| x in s && f(x) == Some(y);
      var j :| 0 <= j < |s| && s[j] == x;
      assert j in idx;
      var k :| 0 <= k < |idx| && idx[k] == j;
      assert r[k] == y;
    }
  }
}
