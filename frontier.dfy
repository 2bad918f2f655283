/**
 * The open list: a priority queue of search nodes keyed by (f-score, id).
 * The id stands in for the node's object identity and is drawn from an
 * insertion counter, so two entries never share one.
 */
module Frontier {
  import opened Cost
  import opened Grid

  datatype Entry = Entry(f: nat, id: nat, state: State)

  /** The priority order: smaller f first, then smaller id. */
  predicate KeyLess(a: Entry, b: Entry) {
    a.f < b.f || (a.f == b.f && a.id < b.id)
  }

  /** KeyLess is a strict order, total on entries with different ids. */
  lemma KeyLessStrictTotal(a: Entry, b: Entry, c: Entry)
    ensures !KeyLess(a, a)
    ensures KeyLess(a, b) ==> !KeyLess(b, a)
    ensures KeyLess(a, b) && KeyLess(b, c) ==> KeyLess(a, c)
    ensures a.id != b.id ==> KeyLess(a, b) || KeyLess(b, a)
  {
  }

  predicate UniqueIds(q: seq<Entry>) {
    forall i, j :: 0 <= i < j < |q| ==> q[i].id != q[j].id
  }

  /**
   * Entry j of q has id id + j and a node for goal whose g is gNext, and
   * is keyed by that node's f-score.
   */
  predicate Numbered(q: seq<Entry>, id: nat, goal: Coord, gNext: nat) {
    forall j :: 0 <= j < |q| ==>
      && q[j].id == id + j
      && q[j].state == State(q[j].state.position, goal, gNext)
      && q[j].f == q[j].state.FScore()
  }

  /** The index of an entry that no other entry precedes. */
  function MinIndex(q: seq<Entry>): (i: nat)
    requires |q| > 0
    ensures i < |q|
    ensures forall j :: 0 <= j < |q| ==> !KeyLess(q[j], q[i])
  {
    if |q| == 1 then 0
    else
      var j := MinIndex(q[1..]) + 1;
      if KeyLess(q[j], q[0]) then j else 0
  }

  /** With distinct ids the minimum is unique, so the pop is determined. */
  lemma MinIndexUnique(q: seq<Entry>, k: nat)
    requires |q| > 0 && UniqueIds(q) && k < |q|
    requires forall j :: 0 <= j < |q| ==> !KeyLess(q[j], q[k])
    ensures k == MinIndex(q)
  {
    var i := MinIndex(q);
    if i != k {
      if i < k {
        KeyLessStrictTotal(q[i], q[k], q[k]);
      } else {
        KeyLessStrictTotal(q[k], q[i], q[i]);
      }
    }
  }

  /** q without its i-th entry, the others kept in order (the heap's pop). */
  function RemoveAt(q: seq<Entry>, i: nat): (r: seq<Entry>)
    requires i < |q|
    ensures |r| == |q| - 1
    ensures forall j :: 0 <= j < |r| ==> r[j] == q[if j < i then j else j + 1]
    ensures multiset(r) + multiset{q[i]} == multiset(q)
  {
    assert q == q[..i] + [q[i]] + q[i + 1..];
    q[..i] + q[i + 1..]
  }

  /** Removing one entry keeps every other entry, adds none, and keeps ids distinct. */
  lemma RemoveAtKeeps(q: seq<Entry>, i: nat)
    requires i < |q|
    ensures forall e :: e in RemoveAt(q, i) ==> e in q
    ensures forall e :: e in q && e != q[i] ==> e in RemoveAt(q, i)
    ensures UniqueIds(q) ==> UniqueIds(RemoveAt(q, i))
    ensures forall c :: c in Positions(q) && c != q[i].state.position ==> c in Positions(RemoveAt(q, i))
  {
    var r := RemoveAt(q, i);
    forall e | e in r ensures e in q {
      assert e in multiset(r);
    }
    forall e | e in q && e != q[i] ensures e in r {
      assert e in multiset(q);
    }
    if UniqueIds(q) {
      forall a, b | 0 <= a < b < |r| ensures r[a].id != r[b].id {
        var a' := if a < i then a else a + 1;
        var b' := if b < i then b else b + 1;
        assert r[a] == q[a'] && r[b] == q[b'] && a' < b';
      }
    }
    forall c | c in Positions(q) && c != q[i].state.position ensures c in Positions(r) {
      var e :| e in q && e.state.position == c;
      assert e in r;
    }
  }

  /** Appending an entry keeps every position and adds the new one. */
  lemma AppendPositions(q: seq<Entry>, e: Entry)
    ensures Positions(q + [e]) == Positions(q) + {e.state.position}
  {
    var r := q + [e];
    forall c | c in Positions(r) ensures c in Positions(q) + {e.state.position} {
      var x :| x in r && x.state.position == c;
      if x != e { assert x in q; }
    }
    forall c | c in Positions(q) ensures c in Positions(r) {
      var x :| x in q && x.state.position == c;
      assert x in r;
    }
    assert e in r;
  }

  /** The cells that have an entry in q. */
  function Positions(q: seq<Entry>): set<Coord> {
    set e | e in q :: e.state.position
  }
}
