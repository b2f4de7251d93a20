/** The `postgres_changes` reducer of `useRealtimeSync`: each row-level event
    is folded into the canonical list and the displayed list is re-derived
    from the current view. Subscription plumbing is not modelled. */
module Realtime {
  import opened Seqs
  import opened Products
  import opened ProductUtils

  /** The event type of a change payload; anything other than the three row
      events is kept by name. */
  datatype EventKind = Insert | Update | Delete | OtherKind(name: string)

  /** A change payload: its type, the new row and the old row. */
  datatype ChangeEvent = ChangeEvent(kind: EventKind, newRow: Product, oldRow: Product)

  /** The canonical list after one event: INSERT appends the new row without
      looking for its id, UPDATE replaces in place every row with the new
      row's id, DELETE drops every row with the old row's id, and any other
      event leaves the list as it was. */
  function ApplyEvent(prev: seq<Product>, ev: ChangeEvent): (r: seq<Product>)
    ensures ev.kind == Insert ==> r == prev + [ev.newRow]
    ensures ev.kind == Update ==> |r| == |prev| && forall i :: 0 <= i < |prev| ==>
              r[i] == (if prev[i].id == ev.newRow.id then ev.newRow else prev[i])
    ensures ev.kind == Delete ==> forall p :: p in r <==> p in prev && p.id != ev.oldRow.id
    ensures ev.kind.OtherKind? ==> r == prev
  {
    match ev.kind
    case Insert => prev + [ev.newRow]
    case Update => UpdateAll(prev, ev.newRow.id, ev.newRow)
    case Delete => RemoveId(prev, ev.oldRow.id)
    case OtherKind(_) => prev
  }

  /** The canonical and displayed lists the reducer writes. */
  datatype Feed = Feed(all: seq<Product>, displayed: seq<Product>)

  /** One event: fold it into the canonical list and project the result by
      view (visible products for the listing, hidden ones otherwise). */
  function OnEvent(all: seq<Product>, view: View, ev: ChangeEvent): (r: Feed)
    ensures r.all == ApplyEvent(all, ev)
    ensures view == Listado ==> r.displayed == Visible(r.all)
    ensures view == Ocultos ==> r.displayed == Hidden(r.all)
  {
    var updated := ApplyEvent(all, ev);
    Feed(updated, Project(updated, view))
  }

  /** INSERT grows the list by exactly one, even when the id is already
      there: the reducer does no duplicate check. */
  lemma InsertAppends(prev: seq<Product>, row: Product, oldRow: Product)
    ensures var r := ApplyEvent(prev, ChangeEvent(Insert, row, oldRow));
      |r| == |prev| + 1 && r[|prev|] == row && r[..|prev|] == prev
    ensures row in prev ==> Count(ApplyEvent(prev, ChangeEvent(Insert, row, oldRow)), row) == Count(prev, row) + 1
  {
    var r := ApplyEvent(prev, ChangeEvent(Insert, row, oldRow));
    if row in prev {
      CountAppend(prev, row);
    }
  }

  /** Appending one more copy of `x` adds one to its count. */
  lemma {:induction false} CountAppend<T>(s: seq<T>, x: T)
    ensures Count(s + [x], x) == Count(s, x) + 1
    decreases |s|
  {
    if |s| == 0 {
      assert s + [x] == [x];
    } else {
      CountAppend(s[1..], x);
      assert (s + [x])[1..] == s[1..] + [x];
    }
  }

  /** An UPDATE for an id that no row carries changes nothing, and delivering
      the same UPDATE twice is the same as delivering it once. */
  lemma UpdateLaws(prev: seq<Product>, ev: ChangeEvent)
    requires ev.kind == Update
    ensures ev.newRow.id !in Ids(prev) ==> ApplyEvent(prev, ev) == prev
    ensures ApplyEvent(ApplyEvent(prev, ev), ev) == ApplyEvent(prev, ev)
  {
    UpdateAllLaws(prev, ev.newRow.id, ev.newRow);
  }

  /** DELETE drops exactly the rows with the old row's id, keeps the others
      in order, and a repeated DELETE changes nothing. */
  lemma DeleteLaws(prev: seq<Product>, ev: ChangeEvent)
    requires ev.kind == Delete
    ensures |ApplyEvent(prev, ev)| == |prev| - Count(Ids(prev), ev.oldRow.id)
    ensures ApplyEvent(ApplyEvent(prev, ev), ev) == ApplyEvent(prev, ev)
    ensures forall a, b :: prev == a + b ==>
              ApplyEvent(prev, ev) == RemoveId(a, ev.oldRow.id) + RemoveId(b, ev.oldRow.id)
  {
    RemoveIdLaws(prev, ev.oldRow.id);
    forall a, b | prev == a + b
      ensures ApplyEvent(prev, ev) == RemoveId(a, ev.oldRow.id) + RemoveId(b, ev.oldRow.id)
    {
      FilterConcat(a, b, NotId(ev.oldRow.id));
    }
  }

  /** The reducer run over events in delivery order, starting from lists `f`. */
  function Replay(f: Feed, view: View, events: seq<ChangeEvent>): Feed
    decreases |events|
  {
    if |events| == 0 then f
    else Replay(OnEvent(f.all, view, events[0]), view, events[1..])
  }

  /** After one or more events, whatever was displayed before, the displayed
      list is the projection of the canonical list: in the listing exactly its
      visible rows in list order, otherwise exactly its hidden rows. */
  lemma {:induction false} ReplayDisplaysProjection(f: Feed, view: View, events: seq<ChangeEvent>)
    requires |events| > 0
    ensures var r := Replay(f, view, events);
      && (view == Listado ==> r.displayed == Visible(r.all))
      && (view == Ocultos ==> r.displayed == Hidden(r.all))
      && (forall p :: p in r.displayed <==> p in r.all && (p.isProductHidden <==> view == Ocultos))
    decreases |events|
  {
    if |events| > 1 {
      ReplayDisplaysProjection(OnEvent(f.all, view, events[0]), view, events[1..]);
    }
  }
}
