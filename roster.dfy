/**
 * The board's tank roster (m_players) seen as a sequence of tank objects:
 * their positions as values, the first-match lookup the roster queries share,
 * and the order-preserving erase that TriggerBomb performs.
 */
module Roster {
  import opened Wrappers
  import opened Tanks

  /** No tank object occupies two slots of the roster. */
  predicate Distinct(ts: seq<Tank>)
  {
    forall p, q :: 0 <= p < q < |ts| ==> ts[p] != ts[q]
  }

  /** The (row, column) of every tank, slot by slot. */
  function Positions(ts: seq<Tank>): (ps: seq<(int, int)>)
    reads ts
    ensures |ps| == |ts|
    ensures forall k :: 0 <= k < |ts| ==> ps[k] == (ts[k].x, ts[k].y)
  {
    if ts == [] then [] else Positions(ts[..|ts| - 1]) + [(ts[|ts| - 1].x, ts[|ts| - 1].y)]
  }

  /** The first slot whose position is (x, y), as find_if finds it. */
  function FirstAt(ps: seq<(int, int)>, x: int, y: int): (r: Option<nat>)
    ensures r.None? <==> (x, y) !in ps
    ensures r.Some? ==> r.value < |ps| && ps[r.value] == (x, y)
    ensures r.Some? ==> forall k :: 0 <= k < r.value ==> ps[k] != (x, y)
  {
    if ps == [] then None
    else if ps[0] == (x, y) then Some(0)
    else match FirstAt(ps[1..], x, y)
      case None => None
      case Some(k) => Some(k + 1)
  }

  /** The roster with every tank standing on a square of `gone` erased, the
      others kept in their order. */
  ghost function Without(ts: seq<Tank>, gone: iset<(int, int)>): (r: seq<Tank>)
    reads ts
    ensures |r| <= |ts|
  {
    if ts == [] then []
    else (if (ts[0].x, ts[0].y) in gone then [] else [ts[0]]) + Without(ts[1..], gone)
  }

  /** A tank survives the erase exactly when it was in the roster and its
      square is not erased. */
  lemma {:induction false} WithoutMembers(ts: seq<Tank>, gone: iset<(int, int)>)
    ensures forall t :: t in Without(ts, gone) <==> t in ts && (t.x, t.y) !in gone
    decreases |ts|
  {
    if ts != [] {
      WithoutMembers(ts[1..], gone);
      assert ts == [ts[0]] + ts[1..];
    }
  }

  /** The erase works slot by slot: erasing from two rosters joined end to
      end joins the two erased rosters, so the survivors keep their order. */
  lemma {:induction false} WithoutAppend(ts: seq<Tank>, us: seq<Tank>, gone: iset<(int, int)>)
    ensures Without(ts + us, gone) == Without(ts, gone) + Without(us, gone)
    decreases |ts|
  {
    if ts == [] {
      assert ts + us == us;
    } else {
      WithoutAppend(ts[1..], us, gone);
      assert (ts + us)[1..] == ts[1..] + us;
    }
  }

  /** When no tank stands on an erased square the roster is unchanged. */
  lemma {:induction false} WithoutNone(ts: seq<Tank>, gone: iset<(int, int)>)
    requires forall k :: 0 <= k < |ts| ==> (ts[k].x, ts[k].y) !in gone
    ensures Without(ts, gone) == ts
    decreases |ts|
  {
    if ts != [] {
      WithoutNone(ts[1..], gone);
      assert ts == [ts[0]] + ts[1..];
    }
  }

  /** Erasing from a roster of distinct tanks leaves them distinct. */
  lemma {:induction false} WithoutDistinct(ts: seq<Tank>, gone: iset<(int, int)>)
    requires Distinct(ts)
    ensures Distinct(Without(ts, gone))
    decreases |ts|
  {
    if ts != [] {
      var rest := ts[1..];
      assert Distinct(rest) by {
        forall p, q | 0 <= p < q < |rest| ensures rest[p] != rest[q] {
          assert rest[p] == ts[p + 1] && rest[q] == ts[q + 1];
        }
      }
      WithoutDistinct(rest, gone);
      WithoutMembers(rest, gone);
      assert ts[0] !in rest;
      assert ts[0] !in Without(rest, gone);
    }
  }

  /** Erasing g after erasing f erases their union. */
  lemma {:induction false} WithoutTwice(ts: seq<Tank>, f: iset<(int, int)>, g: iset<(int, int)>)
    ensures Without(Without(ts, f), g) == Without(ts, f + g)
    decreases |ts|
  {
    if ts != [] {
      var t := ts[0];
      WithoutTwice(ts[1..], f, g);
      var once := Without(ts[1..], f);
      var head := if (t.x, t.y) in f + g then [] else [t];
      assert Without(ts, f + g) == head + Without(ts[1..], f + g);
      if (t.x, t.y) in f {
        assert Without(ts, f) == once;
      } else {
        var both := [t] + once;
        assert Without(ts, f) == both;
        assert both[0] == t && both[1..] == once;
        assert Without(both, g) == head + Without(once, g);
      }
    }
  }
}
