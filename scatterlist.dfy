/**
 * The kernel's scatter-list mapping iterator (`sg_miter_start`, `sg_miter_next`,
 * `sg_miter_stop`) as the SD host driver uses it: a list of memory segments walked
 * front to back, one mapped piece at a time. A mapped piece never crosses a page
 * boundary and never runs past the end of its segment.
 */
module ScatterList {
  import opened Common

  const PAGE_SIZE: nat := 4096

  /** One scatter-list entry: its start offset within its first page and its length in bytes. */
  datatype Segment = Segment(offset: nat, length: nat)

  /**
   * The iterator state: the list it walks, the entry it is in, the bytes of that entry
   * already consumed, and the copy direction (`SG_MITER_TO_SG` when true).
   */
  datatype Cursor = Cursor(segs: seq<Segment>, index: nat, pos: nat, toSg: bool) {
    ghost predicate Valid() {
      && index <= |segs|
      && (index < |segs| ==> pos <= segs[index].length)
      && (index == |segs| ==> pos == 0)
    }
  }

  /** What `sg_miter_next` maps: entry `index`, starting `pos` bytes into it, `length` bytes long. */
  datatype Mapping = Mapping(index: nat, pos: nat, length: nat)

  /** Bytes held by the entries from `i` on. */
  function SumFrom(segs: seq<Segment>, i: nat): nat
    decreases |segs| - i
  {
    if i >= |segs| then 0 else segs[i].length + SumFrom(segs, i + 1)
  }

  function Total(segs: seq<Segment>): nat {
    SumFrom(segs, 0)
  }

  /** Bytes the cursor has not yet consumed. */
  function Remaining(c: Cursor): nat
    requires c.Valid()
  {
    if c.index < |c.segs| then SumFrom(c.segs, c.index) - c.pos else 0
  }

  /** `sg_miter_start`: a fresh iterator at the first byte of the list. */
  function Start(segs: seq<Segment>, toSg: bool): (c: Cursor)
    ensures c.Valid() && c.segs == segs && c.toSg == toSg
    ensures Remaining(c) == Total(segs)
  {
    Cursor(segs, 0, 0, toSg)
  }

  /** Skips the entries that are already fully consumed (zero-length ones included). */
  function Settle(segs: seq<Segment>, i: nat, pos: nat): (r: (nat, nat))
    requires i <= |segs| && (i < |segs| ==> pos <= segs[i].length) && (i == |segs| ==> pos == 0)
    ensures i <= r.0 <= |segs|
    ensures r.0 < |segs| ==> r.1 < segs[r.0].length
    ensures r.0 == |segs| ==> r.1 == 0
    ensures r.0 == i ==> r.1 == pos
    ensures r.0 > i ==> r.1 == 0
    ensures (if r.0 < |segs| then SumFrom(segs, r.0) - r.1 else 0)
         == (if i < |segs| then SumFrom(segs, i) - pos else 0)
    decreases |segs| - i
  {
    if i < |segs| && pos == segs[i].length then Settle(segs, i + 1, 0) else (i, pos)
  }

  /**
   * `sg_miter_next`: the next mapped piece, or None once every byte has been consumed.
   * The piece starts at the first unconsumed byte and ends at the nearer of the
   * segment's end and the page boundary.
   */
  function Next(c: Cursor): (m: Option<Mapping>)
    requires c.Valid()
    ensures m.None? <==> Remaining(c) == 0
    ensures m.Some? ==>
      && m.value.index < |c.segs|
      && m.value.pos + m.value.length <= c.segs[m.value.index].length
      && 0 < m.value.length <= PAGE_SIZE
      && (m.value.index, m.value.pos) == Settle(c.segs, c.index, c.pos)
      && SumFrom(c.segs, m.value.index) - m.value.pos == Remaining(c)
  {
    var r := Settle(c.segs, c.index, c.pos);
    if r.0 == |c.segs| then None
    else
      var seg := c.segs[r.0];
      var toBoundary := PAGE_SIZE - (seg.offset + r.1) % PAGE_SIZE;
      Some(Mapping(r.0, r.1, Min(seg.length - r.1, toBoundary)))
  }

  /**
   * Setting `consumed` to `count` on the mapping `m` and calling `sg_miter_stop`: the
   * cursor moves `count` bytes past the start of the mapped piece.
   */
  function Consume(c: Cursor, m: Mapping, count: nat): (d: Cursor)
    requires c.Valid() && Next(c) == Some(m) && count <= m.length
    ensures d.Valid() && d.segs == c.segs && d.toSg == c.toSg
    ensures Remaining(d) + count == Remaining(c)
  {
    c.(index := m.index, pos := m.pos + count)
  }
}
