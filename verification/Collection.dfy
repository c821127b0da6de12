/*
 * The element collections the controller holds: particles and field points
 * (Points) and boundary panels (Surfaces), each tagged with an element type,
 * a movement type and, for body-bound elements, the body they ride on.
 * The element storage itself belongs to classes that are not part of this
 * model, so a Points collection keeps the raw input it has received and a
 * Surfaces collection keeps its node and panel counts.
 */
module Collections {
  import opened ElementPackets
  import opened Bodies

  /** elem_t: what an element does to the flow. */
  datatype ElemT = Inert | Active | Reactive

  /** move_t: how an element moves. */
  datatype MoveT = Fixed | Lagrangian | Bodybound

  datatype Collection =
    | Points(data: seq<real>, elem: ElemT, move: MoveT, body: Body?)
    | Surfaces(nodes: nat, panels: nat, elem: ElemT, move: MoveT, body: Body?)

  /** Input values per particle: x, y, strength, core radius. */
  const ParticleStride: nat := 4

  /** get_n of one collection: Points sizes itself at a quarter of its input. */
  function Size(c: Collection): nat {
    match c
    case Points(data, _, _, _) => |data| / ParticleStride
    case Surfaces(nodes, _, _, _, _) => nodes
  }

  // ---------------------------------------------------------------------
  // The merge key of add_boundary

  /** The movement type of incoming boundary geometry: carried by a body, or fixed. */
  function BoundaryMove(b: Body?): (m: MoveT)
    ensures m == Bodybound <==> b != null
    ensures m != Lagrangian
  {
    if b != null then Bodybound else Fixed
  }

  /** Collection `c` takes elements of type `e` moving as `m` with body `b`: the types agree,
      and when both sides are body-bound the body is the same object. */
  predicate Matches(c: Collection, e: ElemT, m: MoveT, b: Body?) {
    && c.elem == e
    && c.move == m
    && (m == Bodybound && c.move == Bodybound ==> c.body == b)
  }

  /** The index the scan of add_boundary settles on: the LAST matching collection. */
  function LastMatch(cs: seq<Collection>, e: ElemT, m: MoveT, b: Body?): (r: Option<nat>)
    ensures r.None? <==> forall j :: 0 <= j < |cs| ==> !Matches(cs[j], e, m, b)
    ensures r.Some? ==> r.value < |cs| && Matches(cs[r.value], e, m, b)
    ensures r.Some? ==> forall j :: r.value < j < |cs| ==> !Matches(cs[j], e, m, b)
  {
    if |cs| == 0 then None
    else if Matches(cs[|cs| - 1], e, m, b) then Some(|cs| - 1)
    else LastMatch(cs[..|cs| - 1], e, m, b)
  }

  /** Only the last of several matching collections is chosen: the first is not, unless it
      is the only one. */
  lemma LastMatchPassesOverEarlierMatches(cs: seq<Collection>, e: ElemT, m: MoveT, b: Body?, i: nat, j: nat)
    requires i < j < |cs| && Matches(cs[i], e, m, b) && Matches(cs[j], e, m, b)
    ensures LastMatch(cs, e, m, b).Some? && LastMatch(cs, e, m, b).value != i
    ensures LastMatch(cs, e, m, b).value >= j
  {
  }

  /** Fixed geometry never merges into a body-bound collection, and body-bound geometry merges
      only into the collection of its own body. */
  lemma MatchRespectsBodies(c: Collection, b: Body?)
    ensures Matches(c, Reactive, BoundaryMove(b), b) ==> c.elem == Reactive
    ensures b == null && Matches(c, Reactive, BoundaryMove(b), b) ==> c.move == Fixed
    ensures b != null && Matches(c, Reactive, BoundaryMove(b), b) ==> c.move == Bodybound && c.body == b
  {
  }

  /** A new Surfaces collection built from a packet: one node per coordinate pair, one panel
      per index pair. */
  function NewSurfaces(g: Packet, e: ElemT, m: MoveT, b: Body?): (c: Collection)
    ensures c.Surfaces? && Matches(c, e, m, b)
    ensures c.panels == |g.idx| / 2 && c.nodes == |g.x| / 2
  {
    Surfaces(|g.x| / 2, |g.idx| / 2, e, m, b)
  }

  /** Surfaces::add_new: the counts grow by the packet's; the key is kept. */
  function MergeSurfaces(c: Collection, g: Packet): (c': Collection)
    requires c.Surfaces?
    ensures c'.Surfaces? && c'.elem == c.elem && c'.move == c.move && c'.body == c.body
    ensures c'.panels == c.panels + |g.idx| / 2 && c'.nodes == c.nodes + |g.x| / 2
  {
    c.(nodes := c.nodes + |g.x| / 2, panels := c.panels + |g.idx| / 2)
  }

  /** The reactive list after add_boundary: merged into the last match when that is a
      Surfaces collection, unchanged when it is not, a new Surfaces collection when
      nothing matches. */
  function AddedBoundary(cs: seq<Collection>, b: Body?, g: Packet): (r: seq<Collection>)
    ensures |r| == |cs| + 1 <==> forall j :: 0 <= j < |cs| ==> !Matches(cs[j], Reactive, BoundaryMove(b), b)
    ensures |r| == |cs| || |r| == |cs| + 1
    ensures |r| == |cs| + 1 ==> r[..|cs|] == cs && r[|cs|] == NewSurfaces(g, Reactive, BoundaryMove(b), b)
    ensures forall j :: 0 <= j < |cs| ==>
              && r[j].Surfaces? == cs[j].Surfaces?
              && r[j].elem == cs[j].elem && r[j].move == cs[j].move && r[j].body == cs[j].body
    ensures forall j :: 0 <= j < |cs| && !Matches(cs[j], Reactive, BoundaryMove(b), b) ==> r[j] == cs[j]
    ensures exists k :: 0 <= k < |r| && Matches(r[k], Reactive, BoundaryMove(b), b)
  {
    var m := BoundaryMove(b);
    match LastMatch(cs, Reactive, m, b)
    case None => cs + [NewSurfaces(g, Reactive, m, b)]
    case Some(k) => if cs[k].Surfaces? then cs[k := MergeSurfaces(cs[k], g)] else cs
  }

  // ---------------------------------------------------------------------
  // Points ingestion (add_particles / add_fldpts)

  /** The list after receiving `v`: a new collection `first` when the list is empty,
      otherwise the input appended to the last collection if that holds Points. */
  function Ingested(cs: seq<Collection>, v: seq<real>, first: Collection): (r: seq<Collection>)
    ensures |cs| == 0 ==> r == [first]
    ensures |cs| > 0 ==> |r| == |cs| && r[..|cs| - 1] == cs[..|cs| - 1]
    ensures |cs| > 0 && cs[|cs| - 1].Points? ==> r[|cs| - 1] == cs[|cs| - 1].(data := cs[|cs| - 1].data + v)
    ensures |cs| > 0 && cs[|cs| - 1].Surfaces? ==> r == cs
  {
    if |cs| == 0 then [first]
    else
      var last := cs[|cs| - 1];
      if last.Points? then cs[|cs| - 1 := last.(data := last.data + v)] else cs
  }

  /** An append keeps the receiving collection's key: the caller's types are ignored once a
      collection exists. */
  lemma IngestedKeepsKeys(cs: seq<Collection>, v: seq<real>, first: Collection, i: nat)
    requires 0 < |cs| && i < |cs|
    ensures Ingested(cs, v, first)[i].elem == cs[i].elem
    ensures Ingested(cs, v, first)[i].move == cs[i].move
    ensures Ingested(cs, v, first)[i].body == cs[i].body
  {
  }

  /** Every fourth value, from index 3 on, is the core radius; stamping sets all of them to `vd`. */
  function StampedRadii(v: seq<real>, vd: real): (r: seq<real>)
    ensures |r| == |v|
    ensures forall k :: 0 <= k < |v| && k % ParticleStride == 3 ==> r[k] == vd
    ensures forall k :: 0 <= k < |v| && k % ParticleStride != 3 ==> r[k] == v[k]
  {
    seq(|v|, k requires 0 <= k < |v| => if k % ParticleStride == 3 then vd else v[k])
  }

  lemma StampedRadiiIdempotent(v: seq<real>, vd: real)
    ensures StampedRadii(StampedRadii(v, vd), vd) == StampedRadii(v, vd)
  {
  }

  // ---------------------------------------------------------------------
  // Counts

  /** get_npanels: the panels of the Surfaces collections, other collections contribute none. */
  function NumPanels(cs: seq<Collection>): (n: nat)
    ensures forall k :: 0 <= k < |cs| && cs[k].Surfaces? ==> cs[k].panels <= n
    ensures n == 0 <==> forall k :: 0 <= k < |cs| && cs[k].Surfaces? ==> cs[k].panels == 0
  {
    if |cs| == 0 then 0
    else NumPanels(cs[..|cs| - 1]) + (if cs[|cs| - 1].Surfaces? then cs[|cs| - 1].panels else 0)
  }

  /** get_nparts / get_nfldpts: the sizes of all collections. */
  function NumElements(cs: seq<Collection>): (n: nat)
    ensures forall k :: 0 <= k < |cs| ==> Size(cs[k]) <= n
    ensures n == 0 <==> forall k :: 0 <= k < |cs| ==> Size(cs[k]) == 0
  {
    if |cs| == 0 then 0 else NumElements(cs[..|cs| - 1]) + Size(cs[|cs| - 1])
  }

  lemma {:induction false} NumPanelsAppend(a: seq<Collection>, b: seq<Collection>)
    ensures NumPanels(a + b) == NumPanels(a) + NumPanels(b)
    decreases |b|
  {
    if |b| == 0 {
      assert a + b == a;
    } else {
      var b' := b[..|b| - 1];
      assert (a + b)[..|a + b| - 1] == a + b';
      NumPanelsAppend(a, b');
    }
  }

  lemma {:induction false} NumElementsAppend(a: seq<Collection>, b: seq<Collection>)
    ensures NumElements(a + b) == NumElements(a) + NumElements(b)
    decreases |b|
  {
    if |b| == 0 {
      assert a + b == a;
    } else {
      var b' := b[..|b| - 1];
      assert (a + b)[..|a + b| - 1] == a + b';
      NumElementsAppend(a, b');
    }
  }

  /** Replacing one collection changes the panel total by the difference of its panels. */
  lemma {:induction false} NumPanelsUpdate(cs: seq<Collection>, k: nat, c: Collection)
    requires k < |cs|
    ensures NumPanels(cs[k := c]) + (if cs[k].Surfaces? then cs[k].panels else 0)
            == NumPanels(cs) + (if c.Surfaces? then c.panels else 0)
  {
    assert cs == cs[..k] + [cs[k]] + cs[k + 1..];
    assert cs[k := c] == cs[..k] + [c] + cs[k + 1..];
    NumPanelsAppend(cs[..k] + [cs[k]], cs[k + 1..]);
    NumPanelsAppend(cs[..k] + [c], cs[k + 1..]);
    NumPanelsAppend(cs[..k], [cs[k]]);
    NumPanelsAppend(cs[..k], [c]);
    assert NumPanels([cs[k]]) == (if cs[k].Surfaces? then cs[k].panels else 0) by {
      assert [cs[k]][..0] == [];
    }
    assert NumPanels([c]) == (if c.Surfaces? then c.panels else 0) by {
      assert [c][..0] == [];
    }
  }

  /** add_boundary adds the packet's panels to the panel count, unless the chosen collection
      is not a Surfaces collection. */
  lemma AddedBoundaryPanels(cs: seq<Collection>, b: Body?, g: Packet)
    ensures var k := LastMatch(cs, Reactive, BoundaryMove(b), b);
            NumPanels(AddedBoundary(cs, b, g))
            == NumPanels(cs) + (if k.None? || cs[k.value].Surfaces? then |g.idx| / 2 else 0)
  {
    var m := BoundaryMove(b);
    match LastMatch(cs, Reactive, m, b)
    case None =>
      var c := NewSurfaces(g, Reactive, m, b);
      NumPanelsAppend(cs, [c]);
      assert [c][..0] == [];
    case Some(k) =>
      if cs[k].Surfaces? {
        NumPanelsUpdate(cs, k, MergeSurfaces(cs[k], g));
      }
  }

  /** add_boundary touches one collection at most and never shrinks the list. */
  lemma AddedBoundaryShape(cs: seq<Collection>, b: Body?, g: Packet)
    ensures var r := AddedBoundary(cs, b, g);
            && |cs| <= |r| <= |cs| + 1
            && (forall j :: 0 <= j < |cs| && LastMatch(cs, Reactive, BoundaryMove(b), b) != Some(j) ==> r[j] == cs[j])
            && (|r| == |cs| + 1 <==> LastMatch(cs, Reactive, BoundaryMove(b), b).None?)
  {
  }

  /** Adding the same geometry key twice merges the second time: once a collection for a key
      exists, the list no longer grows. */
  lemma AddedBoundaryThenMerges(cs: seq<Collection>, b: Body?, g1: Packet, g2: Packet)
    ensures |AddedBoundary(AddedBoundary(cs, b, g1), b, g2)| == |AddedBoundary(cs, b, g1)|
  {
    var m := BoundaryMove(b);
    var r := AddedBoundary(cs, b, g1);
    match LastMatch(cs, Reactive, m, b)
    case None =>
      assert Matches(r[|r| - 1], Reactive, m, b);
    case Some(k) =>
      assert Matches(r[k], Reactive, m, b);
  }
}
