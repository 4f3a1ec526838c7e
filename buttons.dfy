/** The button mapper: debouncer edges become presses and releases of
    logical buttons, routed to the standard or the special bank. */
module Buttons {
  import opened Config
  import opened Sink

  /** What a debouncer reports after `update()`: its `fell()` and `rose()`. */
  datatype Bounce = Bounce(fell: bool, rose: bool)

  predicate HasEdge(e: Bounce) {
    e.fell || e.rose
  }

  predicate AnyEdge(edges: seq<Bounce>) {
    exists i :: 0 <= i < |edges| && HasEdge(edges[i])
  }

  /** The logical id a button action stands for, undoing the bank routing. */
  function LogicalId(a: Action): int
    requires IsButtonAction(a)
  {
    match a
    case Press(b) => b
    case Release(b) => b
    case PressSpecial(b) => b + O_SPECIAL
    case ReleaseSpecial(b) => b + O_SPECIAL
  }

  /** The press of logical id `id`: ids from O_SPECIAL up go to the special
      bank with O_SPECIAL subtracted, the others to the standard bank as they are. */
  function PressOf(id: Byte): (a: Action)
    ensures a.Press? || a.PressSpecial?
    ensures a.PressSpecial? <==> id >= O_SPECIAL
    ensures LogicalId(a) == id
  {
    if id >= O_SPECIAL then PressSpecial(id - O_SPECIAL) else Press(id)
  }

  /** The release of logical id `id`, routed as for a press. */
  function ReleaseOf(id: Byte): (a: Action)
    ensures a.Release? || a.ReleaseSpecial?
    ensures a.ReleaseSpecial? <==> id >= O_SPECIAL
    ensures LogicalId(a) == id
  {
    if id >= O_SPECIAL then ReleaseSpecial(id - O_SPECIAL) else Release(id)
  }

  /** What one button contributes to a cycle; `fell` wins over `rose`. */
  function EdgeActions(id: Byte, e: Bounce): (r: seq<Action>)
    ensures |r| <= 1
    ensures |r| == 1 <==> HasEdge(e)
  {
    if e.fell then [PressOf(id)] else if e.rose then [ReleaseOf(id)] else []
  }

  /** The calls of the button loop, button by button in table order. */
  function ButtonActions(ids: seq<Byte>, edges: seq<Bounce>): seq<Action>
    requires |ids| == |edges|
    decreases |ids|
  {
    if ids == [] then []
    else
      var n := |ids| - 1;
      ButtonActions(ids[..n], edges[..n]) + EdgeActions(ids[n], edges[n])
  }

  /** The button loop of one connected cycle: it makes the calls of
      `ButtonActions` and raises the report flag iff some button has an edge. */
  method MapButtons(ids: seq<Byte>, edges: seq<Bounce>) returns (acts: seq<Action>, sendReport: bool)
    requires |ids| == |edges|
    ensures acts == ButtonActions(ids, edges)
    ensures sendReport <==> AnyEdge(edges)
  {
    acts, sendReport := [], false;
    for i := 0 to |ids|
      invariant acts == ButtonActions(ids[..i], edges[..i])
      invariant sendReport <==> AnyEdge(edges[..i])
    {
      if edges[i].fell {
        acts := acts + [PressOf(ids[i])];
        sendReport := true;
      } else if edges[i].rose {
        acts := acts + [ReleaseOf(ids[i])];
        sendReport := true;
      }
      assert ids[..i + 1][..i] == ids[..i];
      assert edges[..i + 1][..i] == edges[..i];
      assert edges[..i + 1][i] == edges[i];
    }
    assert ids[..|ids|] == ids;
    assert edges[..|edges|] == edges;
  }

  /** The button loop makes only press and release calls, and only for ids
      of the table. */
  lemma {:induction false} ButtonActionsIds(ids: seq<Byte>, edges: seq<Bounce>)
    requires |ids| == |edges|
    ensures forall a :: a in ButtonActions(ids, edges) ==> IsButtonAction(a) && LogicalId(a) in ids
    decreases |ids|
  {
    if ids != [] {
      var n := |ids| - 1;
      ButtonActionsIds(ids[..n], edges[..n]);
      assert forall k :: 0 <= k < n ==> ids[..n][k] == ids[k];
    }
  }

  /** The button loop makes no call at all iff no button has an edge. */
  lemma {:induction false} ButtonActionsEmpty(ids: seq<Byte>, edges: seq<Bounce>)
    requires |ids| == |edges|
    ensures ButtonActions(ids, edges) == [] <==> !AnyEdge(edges)
    decreases |ids|
  {
    if ids != [] {
      var n := |ids| - 1;
      ButtonActionsEmpty(ids[..n], edges[..n]);
      if AnyEdge(edges[..n]) {
        var i :| 0 <= i < n && HasEdge(edges[..n][i]);
        assert HasEdge(edges[i]);
      }
      if AnyEdge(edges) && !HasEdge(edges[n]) {
        var i :| 0 <= i < |edges| && HasEdge(edges[i]);
        assert edges[..n][i] == edges[i];
      }
    }
  }

  /** With distinct ids, button i is pressed once iff it fell, released once
      iff it rose without falling, and otherwise not mentioned: at most one
      event per button per cycle, routed by its id. */
  lemma {:induction false} ButtonActionsCount(ids: seq<Byte>, edges: seq<Bounce>, i: nat)
    requires |ids| == |edges| && i < |ids| && Distinct(ids)
    ensures multiset(ButtonActions(ids, edges))[PressOf(ids[i])] == (if edges[i].fell then 1 else 0)
    ensures multiset(ButtonActions(ids, edges))[ReleaseOf(ids[i])] == (if !edges[i].fell && edges[i].rose then 1 else 0)
    decreases |ids|
  {
    var n := |ids| - 1;
    var prefix := ButtonActions(ids[..n], edges[..n]);
    var last := EdgeActions(ids[n], edges[n]);
    assert ButtonActions(ids, edges) == prefix + last;
    assert multiset(prefix + last) == multiset(prefix) + multiset(last);
    assert Distinct(ids[..n]);
    if i == n {
      ButtonActionsIds(ids[..n], edges[..n]);
      assert ids[n] !in ids[..n];
      assert PressOf(ids[n]) !in prefix;
      assert ReleaseOf(ids[n]) !in prefix;
    } else {
      ButtonActionsCount(ids[..n], edges[..n], i);
      assert ids[..n][i] == ids[i] && edges[..n][i] == edges[i];
      assert PressOf(ids[i]) !in last && ReleaseOf(ids[i]) !in last by {
        assert ids[i] != ids[n];
      }
    }
  }

  /** The counts of `ButtonActionsCount` survive appending calls that are not
      button calls. */
  lemma ButtonActionsCountIn(ids: seq<Byte>, edges: seq<Bounce>, i: nat, rest: seq<Action>)
    requires |ids| == |edges| && i < |ids| && Distinct(ids)
    requires forall a :: a in rest ==> !IsButtonAction(a)
    ensures multiset(ButtonActions(ids, edges) + rest)[PressOf(ids[i])] == (if edges[i].fell then 1 else 0)
    ensures multiset(ButtonActions(ids, edges) + rest)[ReleaseOf(ids[i])] == (if !edges[i].fell && edges[i].rose then 1 else 0)
  {
    ButtonActionsCount(ids, edges, i);
    var b := ButtonActions(ids, edges);
    assert multiset(b + rest) == multiset(b) + multiset(rest);
    assert PressOf(ids[i]) !in rest && ReleaseOf(ids[i]) !in rest;
  }
}
