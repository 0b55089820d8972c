// The doubly linked list macros of utlist.h, and the mergesort that utlist.h and uthash.h share: it
// relinks the nodes in place.
module UtList {
  import opened Seqs
  import opened StableSort

  // An element of the application: the links of utlist.h, which the application-order list of uthash.h
  // uses too, and what the rest of a hash handle holds.
  class Node<D> {
    const data: D
    var next: Node?<D>
    var prev: Node?<D>
    var hhNext: Node?<D>
    var hhPrev: Node?<D>
    var hashv: nat

    constructor (data: D)
      ensures this.data == data
    {
      this.data := data;
    }
  }

  ghost function DataOf<D>(n: Node<D>): D { n.data }

  // The node at position i, or null past the end.
  ghost function At<D>(s: seq<Node<D>>, i: nat): Node?<D> {
    if i < |s| then s[i] else null
  }

  // The variable that the macros take as `head`, with the nodes it lists.
  class List<D(!new)> {
    var head: Node?<D>
    ghost var nodes: seq<Node<D>>

    // head and the next links run through the nodes in order.
    ghost predicate Linked()
      reads this, nodes
    {
      && Distinct(nodes)
      && head == At(nodes, 0)
      && (forall i {:trigger nodes[i].next} :: 0 <= i < |nodes| ==> nodes[i].next == At(nodes, i + 1))
    }

    // The prev links run back, and the first one is null: the application order of uthash.h.
    ghost predicate Valid0()
      reads this, nodes
    {
      && Linked()
      && (forall i {:trigger nodes[i].prev} :: 0 <= i < |nodes| ==>
            nodes[i].prev == (if i == 0 then null else nodes[i - 1]))
    }

    // The prev links run back, and the first one points at the tail: a list of utlist.h.
    ghost predicate Valid()
      reads this, nodes
    {
      && Linked()
      && (forall i {:trigger nodes[i].prev} :: 0 <= i < |nodes| ==>
            nodes[i].prev == nodes[if i == 0 then |nodes| - 1 else i - 1])
    }

    constructor ()
      ensures Valid() && Valid0() && nodes == []
    {
      head, nodes := null, [];
    }

    // DL_PREPEND
    method Prepend(add: Node<D>)
      requires Valid() && add !in nodes
      modifies this, nodes, add
      ensures Valid() && nodes == [add] + old(nodes)
    {
      add.next := head;
      if head != null {
        add.prev := head.prev;
        head.prev := add;
      } else {
        add.prev := add;
      }
      head := add;
      nodes := [add] + nodes;
    }

    // DL_APPEND
    method Append(add: Node<D>)
      requires Valid() && add !in nodes
      modifies this, nodes, add
      ensures Valid() && nodes == old(nodes) + [add]
    {
      if head != null {
        add.prev := head.prev;
        head.prev.next := add;
        head.prev := add;
        add.next := null;
      } else {
        head := add;
        head.prev := head;
        head.next := null;
      }
      nodes := nodes + [add];
    }

    // DL_CONCAT
    method Concat(other: List<D>)
      requires Valid() && other.Valid()
      requires forall i, j :: 0 <= i < |nodes| && 0 <= j < |other.nodes| ==> nodes[i] != other.nodes[j]
      modifies this, nodes, other.nodes
      ensures Valid() && nodes == old(nodes) + old(other.nodes)
    {
      ghost var A, B := nodes, other.nodes;
      if other.head != null {
        if head != null {
          var tmp := other.head.prev;
          other.head.prev := head.prev;
          head.prev.next := other.head;
          head.prev := tmp;
        } else {
          head := other.head;
        }
      }
      nodes := A + B;
      DistinctConcat(A, B);
    }

    // DL_DELETE of the node at position k
    method Delete(del: Node<D>, ghost k: nat)
      requires Valid() && k < |nodes| && nodes[k] == del
      modifies this, nodes
      ensures Valid() && nodes == old(nodes)[..k] + old(nodes)[k + 1..]
    {
      assert k == 0 <==> del == head;
      assert k > 0 ==> del.prev == nodes[k - 1];
      assert del.prev == del <==> |nodes| == 1;
      if del.prev == del {
        head := null;
      } else if del == head {
        del.next.prev := del.prev;
        head := del.next;
      } else {
        del.prev.next := del.next;
        if del.next != null {
          del.next.prev := del.prev;
        } else {
          head.prev := del.prev;
        }
      }
      nodes := nodes[..k] + nodes[k + 1..];
    }

    // The list part of HASH_ADD: add goes behind the tail.
    method AppendInOrder(add: Node<D>, tail: Node?<D>)
      requires Valid0() && add !in nodes
      requires tail == (if nodes == [] then null else nodes[|nodes| - 1])
      modifies this, Elems(nodes)`next, add`next, add`prev
      ensures Valid0() && nodes == old(nodes) + [add]
    {
      add.next := null;
      if head == null {
        head := add;
        head.prev := null;
      } else {
        tail.next := add;
        add.prev := tail;
      }
      nodes := nodes + [add];
    }

    // The list part of HASH_DELETE
    method Unlink(del: Node<D>, ghost k: nat)
      requires Valid0() && k < |nodes| && nodes[k] == del
      modifies this, Elems(nodes)`next, Elems(nodes)`prev
      ensures Valid0() && nodes == old(nodes)[..k] + old(nodes)[k + 1..]
    {
      if del.prev != null {
        del.prev.next := del.next;
      } else {
        head := del.next;
      }
      if del.next != null {
        del.next.prev := del.prev;
      }
      nodes := nodes[..k] + nodes[k + 1..];
    }

    // DL_SORT
    method Sort(cmp: Cmp<D>)
      requires Valid() && TotalPreorder(cmp)
      modifies this, Elems(nodes)`next, Elems(nodes)`prev
      ensures Valid() && nodes == BottomUp(cmp, DataOf, old(nodes), 1)
      ensures StableSortOf(cmp, DataOf, old(nodes), nodes)
    {
      BottomUpIsStableSort(cmp, DataOf, nodes);
      if head != null {
        SortLoop(cmp);
      }
    }

    method SortLoop(cmp: Cmp<D>)
      requires Valid() && nodes != []
      modifies this, Elems(nodes)`next, Elems(nodes)`prev
      ensures Valid() && nodes == BottomUp(cmp, DataOf, old(nodes), 1)
    {
      var insize := 1;
      var looping := true;
      ghost var goal := BottomUp(cmp, DataOf, nodes, 1);
      while looping
        invariant insize > 0 && Valid() && nodes != []
        invariant BottomUp(cmp, DataOf, nodes, insize) == goal
        invariant Elems(nodes) == Elems(old(nodes))
        invariant !looping ==> |nodes| <= insize
        decreases if looping then 1 + (if |nodes| > insize then |nodes| - insize else 0) else 0
      {
        var nmerges, tail := Round(cmp, insize, goal);
        TieHead(tail);
        if nmerges <= 1 {
          looping := false;
        }
        insize := insize * 2;
      }
    }

    // The outer loop of HASH_SRT
    method SortInOrder(cmp: Cmp<D>) returns (tail: Node?<D>)
      requires Valid0() && nodes != []
      modifies this, Elems(nodes)`next, Elems(nodes)`prev
      ensures Valid0() && nodes == BottomUp(cmp, DataOf, old(nodes), 1)
      ensures Elems(nodes) == Elems(old(nodes)) && |nodes| == |old(nodes)| && tail == nodes[|nodes| - 1]
    {
      var insize := 1;
      var looping := true;
      tail := null;
      ghost var goal, n := BottomUp(cmp, DataOf, nodes, 1), |nodes|;
      while looping
        invariant insize > 0 && Valid0() && nodes != []
        invariant BottomUp(cmp, DataOf, nodes, insize) == goal
        invariant Elems(nodes) == Elems(old(nodes)) && |nodes| == n
        invariant !looping ==> n <= insize && tail == nodes[|nodes| - 1]
        decreases if looping then 1 + (if n > insize then n - insize else 0) else 0
      {
        var nmerges, t := Round(cmp, insize, goal);
        if nmerges <= 1 {
          looping := false;
          tail := t;
        }
        insize := insize * 2;
      }
    }

    // One round; the goal stays the same.
    method Round(cmp: Cmp<D>, insize: nat, ghost goal: seq<Node<D>>) returns (nmerges: nat, tail: Node?<D>)
      requires Linked() && nodes != [] && insize > 0 && BottomUp(cmp, DataOf, nodes, insize) == goal
      modifies this, Elems(nodes)`next, Elems(nodes)`prev
      ensures Valid0() && BottomUp(cmp, DataOf, nodes, 2 * insize) == goal
      ensures Elems(nodes) == Elems(old(nodes)) && |nodes| == |old(nodes)|
      ensures nmerges <= 1 <==> |nodes| <= 2 * insize
      ensures tail == nodes[|nodes| - 1]
    {
      ghost var was := nodes;
      nmerges, tail := SortPass(cmp, insize);
      BottomUpStep(cmp, DataOf, was, insize);
    }

    method TieHead(tail: Node?<D>)
      requires Valid0() && nodes != [] && tail == nodes[|nodes| - 1]
      modifies Elems(nodes)`prev
      ensures Valid()
    {
      head.prev := tail;
    }

    // One round of the outer loop of the sort macros: merge neighbouring runs of length insize.
    method SortPass(cmp: Cmp<D>, insize: nat) returns (nmerges: nat, tail: Node?<D>)
      requires Linked() && nodes != [] && insize > 0
      modifies this, Elems(nodes)`next, Elems(nodes)`prev
      ensures Valid0() && nodes == MergePass(cmp, DataOf, old(nodes), 0, insize)
      ensures Elems(nodes) == Elems(old(nodes)) && |nodes| == |old(nodes)|
      ensures nmerges <= 1 <==> |nodes| <= 2 * insize
      ensures tail == nodes[|nodes| - 1]
    {
      var p := head;
      head := null;
      ghost var st := StartPass(nodes);
      nmerges, tail, st := MergeAll(cmp, p, insize, st);
      FinishPass(cmp, tail, insize, st);
    }

    // Merge the runs two by two until the list is used up.
    method MergeAll(cmp: Cmp<D>, p0: Node?<D>, insize: nat, ghost st0: Pass<D>)
      returns (nmerges: nat, tail: Node?<D>, ghost st: Pass<D>)
      requires insize > 0 && st0.L != [] && p0 == st0.L[0] && st0.out == [] && Partial(st0, 0, 0, 0, null)
      modifies this`head, Elems(st0.L)`next, Elems(st0.L)`prev
      ensures st.L == st0.L && Partial(st, |st.L|, |st.L|, |st.L|, tail) && |st.out| == |st.L|
      ensures st.out + MergePass(cmp, DataOf, st.L, |st.L|, insize) == MergePass(cmp, DataOf, st.L, 0, insize)
      ensures nmerges <= 1 <==> |st.L| <= 2 * insize
    {
      ghost var n, start: nat, goal := |st0.L|, 0, MergePass(cmp, DataOf, st0.L, 0, insize);
      assert [] + goal == goal;
      var p := p0;
      nmerges, tail, st := 0, null, st0;
      while p != null
        invariant start <= n && p == At(st.L, start) && st.L == st0.L
        invariant |st.out| == start
        invariant st.out + MergePass(cmp, DataOf, st.L, start, insize) == goal
        invariant Partial(st, start, start, start, tail)
        invariant nmerges == 0 <==> start == 0
        invariant nmerges == 1 ==> start == Min(2 * insize, n)
        invariant nmerges >= 2 ==> n > 2 * insize
        decreases n - start
      {
        nmerges := nmerges + 1;
        p, tail, st := MergeNext(cmp, p, insize, tail, start, st);
        start := Min(start + 2 * insize, n);
      }
    }

    lemma StartPass(L: seq<Node<D>>) returns (st: Pass<D>)
      requires Distinct(L) && head == null
      requires forall j {:trigger L[j].next} :: 0 <= j < |L| ==> L[j].next == At(L, j + 1)
      ensures st.L == L && st.out == [] && Partial(st, 0, 0, 0, null)
    {
      var index := Numbering(L);
      st := Pass(L, index, [], map[], Elems(L));
    }

    // Merge the next two runs: the one at p, and the one behind it.
    method MergeNext(cmp: Cmp<D>, p0: Node<D>, insize: nat, tail0: Node?<D>, ghost start: nat, ghost st0: Pass<D>)
      returns (p: Node?<D>, tail: Node?<D>, ghost st: Pass<D>)
      requires insize > 0 && start < |st0.L| && p0 == st0.L[start] && Partial(st0, start, start, start, tail0)
      modifies this`head, Elems(st0.L)`next, Elems(st0.L)`prev
      ensures var qe := Min(start + 2 * insize, |st.L|);
              && st.L == st0.L && p == At(st.L, qe) && Partial(st, qe, qe, qe, tail)
              && |st.out| == |st0.out| + qe - start
              && st.out + MergePass(cmp, DataOf, st.L, qe, insize)
                 == st0.out + MergePass(cmp, DataOf, st.L, start, insize)
    {
      var q, psize := SecondRun(p0, insize, tail0, start, st0);
      ghost var todo := MergePass(cmp, DataOf, st0.L, start, insize);
      ghost var qe := Min(start + psize + insize, |st0.L|);
      ghost var m, rest := PassStep(cmp, DataOf, st0.L, start, insize, start + psize, qe);
      assert qe == Min(start + 2 * insize, |st0.L|);
      p, tail, st := MergeRuns(cmp, p0, q, psize, insize, tail0, start, st0, rest, todo);
    }

    // Where the second of two neighbouring runs begins, and the length of the first.
    method SecondRun(p0: Node<D>, insize: nat, ghost tail: Node?<D>, ghost start: nat, ghost st: Pass<D>)
      returns (q: Node?<D>, psize: nat)
      requires insize > 0 && start < |st.L| && p0 == st.L[start] && Partial(st, start, start, start, tail)
      ensures psize == Min(insize, |st.L| - start) && q == At(st.L, start + psize)
      ensures Partial(st, start, start, start, tail)
    {
      q, psize := StepAlong(p0, insize, st.L, start);
    }

    // Step up to insize places along the list from p.
    method StepAlong(p: Node<D>, insize: nat, ghost L: seq<Node<D>>, ghost start: nat)
      returns (q: Node?<D>, psize: nat)
      requires insize > 0 && start < |L| && p == L[start]
      requires forall j {:trigger L[j].next} :: start <= j < |L| ==> L[j].next == At(L, j + 1)
      ensures psize == Min(insize, |L| - start) && q == At(L, start + psize)
    {
      q, psize := p, 0;
      var i := 0;
      while i < insize
        invariant 0 <= i <= insize && psize == i && start + psize <= |L|
        invariant q == At(L, start + psize) && (i == 0 || q != null)
      {
        psize := psize + 1;
        q := q.next;
        if q == null { break; }
        i := i + 1;
      }
    }

    // Merge the run of psize nodes at p with the run of up to insize nodes at q onto the list so far.
    method MergeRuns(cmp: Cmp<D>, p0: Node<D>, q0: Node?<D>, psize0: nat, insize: nat, tail0: Node?<D>,
                     ghost start: nat, ghost st0: Pass<D>, ghost rest: seq<Node<D>>, ghost todo: seq<Node<D>>)
      returns (q: Node?<D>, tail: Node?<D>, ghost st: Pass<D>)
      requires 0 < psize0 && start + psize0 <= |st0.L| && insize > 0
      requires p0 == st0.L[start] && q0 == At(st0.L, start + psize0)
      requires Partial(st0, start, start, start, tail0)
      requires var pe := start + psize0;
               todo == Merge(cmp, DataOf, st0.L, start, pe, pe, Min(pe + insize, |st0.L|)) + rest
      modifies this`head, Elems(st0.L)`next, Elems(st0.L)`prev
      ensures var pe := start + psize0; var qe := Min(pe + insize, |st.L|);
              && st.L == st0.L && q == At(st.L, qe) && |st.out| == |st0.out| + qe - start
              && st.out + rest == st0.out + todo
              && Partial(st, qe, qe, qe, tail)
    {
      ghost var L := st0.L;
      ghost var pe := start + psize0;
      ghost var qe := Min(pe + insize, |L|);
      var p: Node?<D>, psize, qsize := p0, psize0, insize;
      q, tail, st := q0, tail0, st0;
      ghost var pi, qi := start, pe;
      ghost var goal := st0.out + todo;
      while psize > 0 || (qsize > 0 && q != null)
        invariant start <= pi <= pe <= qi <= qe && st.L == L && |st.out| == |st0.out| + pi - start + qi - pe
        invariant psize == pe - pi && qsize == pe + insize - qi
        invariant q == At(L, qi) && (psize > 0 ==> p == L[pi])
        invariant st.out + (Merge(cmp, DataOf, L, pi, pe, qi, qe) + rest) == goal
        invariant Partial(st, pi, pe, qi, tail)
        decreases psize + qsize
      {
        p, q, psize, qsize, tail, st, pi, qi := MergeOne(cmp, p, q, psize, qsize, tail, pi, pe, qi, qe, st, rest);
      }
      assert qi == qe by { if q == null { assert qi == |L|; } }
      assert [] + rest == rest;
    }

    // Move the next node of the two runs onto the list so far.
    method MergeOne(cmp: Cmp<D>, p: Node?<D>, q: Node?<D>, psize: nat, qsize: nat, tail: Node?<D>, ghost pi: nat,
                    ghost pe: nat, ghost qi: nat, ghost qe: nat, ghost st: Pass<D>, ghost rest: seq<Node<D>>)
      returns (p': Node?<D>, q': Node?<D>, psize': nat, qsize': nat, tail': Node?<D>, ghost st': Pass<D>,
               ghost pi': nat, ghost qi': nat)
      requires pi <= pe <= qi <= qe <= |st.L| && psize == pe - pi && Partial(st, pi, pe, qi, tail)
      requires q == At(st.L, qi) && (psize > 0 ==> p == st.L[pi])
      requires qsize > 0 && q != null <==> qi < qe
      requires psize > 0 || (qsize > 0 && q != null)
      modifies this`head, Elems(st.L)`next, Elems(st.L)`prev
      ensures psize' + qsize' == psize + qsize - 1 && pi' - pi == psize - psize' && qi' - qi == qsize - qsize'
      ensures pi <= pi' <= pe && qi <= qi' <= qe && psize' == pe - pi'
      ensures q' == At(st.L, qi') && (psize' > 0 ==> p' == st.L[pi'])
      ensures st'.L == st.L && |st'.out| == |st.out| + 1 && Partial(st', pi', pe, qi', tail')
      ensures st'.out + (Merge(cmp, DataOf, st.L, pi', pe, qi', qe) + rest)
           == st.out + (Merge(cmp, DataOf, st.L, pi, pe, qi, qe) + rest)
    {
      var e; ghost var fromP;
      e, p', q', psize', qsize', fromP := TakeNext(cmp, p, q, psize, qsize, pi, pe, qi, st, tail);
      pi', qi' := if fromP then pi + 1 else pi, if fromP then qi else qi + 1;
      MoveToOut(st.out, e, Merge(cmp, DataOf, st.L, pi', pe, qi', qe), rest);
      st' := LinkAtTail(e, tail, pi, pe, qi, st, fromP);
      tail' := e;
    }

    // The next node of the merged list: from q when p is used up, from p when q is, else the smaller
    // one, and p's on a tie.
    method TakeNext(cmp: Cmp<D>, p: Node?<D>, q: Node?<D>, psize: nat, qsize: nat,
                    ghost pi: nat, ghost pe: nat, ghost qi: nat, ghost st: Pass<D>, ghost tail: Node?<D>)
      returns (e: Node<D>, p': Node?<D>, q': Node?<D>, psize': nat, qsize': nat, ghost fromP: bool)
      requires pi <= pe <= qi <= |st.L| && psize == pe - pi && Partial(st, pi, pe, qi, tail)
      requires q == At(st.L, qi) && (psize > 0 ==> p == st.L[pi])
      requires psize > 0 || (qsize > 0 && q != null)
      ensures fromP ==> psize > 0 && e == st.L[pi] && psize' == psize - 1 && qsize' == qsize && q' == q
                        && (psize' > 0 ==> p' == st.L[pi + 1])
      ensures !fromP ==> qsize > 0 && qi < |st.L| && e == st.L[qi] && qsize' == qsize - 1 && psize' == psize
                         && p' == p && q' == At(st.L, qi + 1)
      ensures psize > 0 && qsize > 0 && qi < |st.L| ==> (fromP <==> Le(cmp, DataOf, st.L[pi], st.L[qi]))
    {
      p', q', psize', qsize' := p, q, psize, qsize;
      if psize == 0 {
        e := q; q' := q.next; qsize' := qsize - 1;
        fromP := false;
      } else if qsize == 0 || q == null {
        e := p; p' := p.next; psize' := psize - 1;
        fromP := true;
      } else if cmp(p.data, q.data) <= 0 {
        e := p; p' := p.next; psize' := psize - 1;
        fromP := true;
      } else {
        e := q; q' := q.next; qsize' := qsize - 1;
        fromP := false;
      }
    }

    // Put e behind the tail of the list so far.
    method LinkAtTail(e: Node<D>, tail: Node?<D>, ghost pi: nat, ghost pe: nat, ghost qi: nat,
                      ghost st0: Pass<D>, ghost fromP: bool)
      returns (ghost st: Pass<D>)
      requires pi <= pe <= qi <= |st0.L| && Partial(st0, pi, pe, qi, tail)
      requires if fromP then pi < pe && e == st0.L[pi] else qi < |st0.L| && e == st0.L[qi]
      modifies this`head, Elems(st0.L)`next, Elems(st0.L)`prev
      ensures st == st0.(out := st0.out + [e], place := st0.place[e := |st0.out|], rest := st0.rest - {e})
      ensures Partial(st, if fromP then pi + 1 else pi, pe, if fromP then qi else qi + 1, e)
    {
      ghost var out := st0.out;
      assert e in st0.rest && forall i :: 0 <= i < |out| ==> out[i] != e;
      assert forall i :: 0 <= i < |out| - 1 ==> out[i] != tail;
      if tail != null {
        tail.next := e;
      } else {
        head := e;
      }
      e.prev := tail;
      st := st0.(out := st0.out + [e], place := st0.place[e := |st0.out|], rest := st0.rest - {e});
      assert forall i {:trigger out[i].prev} :: 0 <= i < |out| ==> out[i].prev == old(out[i].prev);
      assert forall i {:trigger out[i].next} :: 0 <= i < |out| - 1 ==> out[i].next == old(out[i].next);
    }

    // The end of a pass: close the list at its tail.
    method FinishPass(cmp: Cmp<D>, tail: Node?<D>, ghost insize: nat, ghost st: Pass<D>)
      requires insize > 0 && st.L != []
      requires st.out + MergePass(cmp, DataOf, st.L, |st.L|, insize) == MergePass(cmp, DataOf, st.L, 0, insize)
      requires Partial(st, |st.L|, |st.L|, |st.L|, tail) && |st.out| == |st.L|
      modifies this`nodes, Elems(st.L)`next
      ensures nodes == MergePass(cmp, DataOf, st.L, 0, insize)
      ensures Valid0() && nodes == st.out && Elems(st.out) == Elems(st.L) && tail == nodes[|nodes| - 1]
    {
      WholePass(cmp, insize, st);
      CloseOut(tail, st);
    }

    method CloseOut(tail: Node?<D>, ghost st: Pass<D>)
      requires OutLinked(st, tail) && Distinct(st.out) && st.out != []
      modifies this`nodes, tail`next
      ensures Valid0() && nodes == st.out
    {
      tail.next := null;
      nodes := st.out;
    }

    // In the middle of a pass: `out` is linked up to `tail`, and the nodes of L at pi..pe and from qi
    // on, all among `rest`, still carry the links they had.
    ghost predicate Partial(st: Pass<D>, pi: nat, pe: nat, qi: nat, tail: Node?<D>)
      requires pi <= pe <= |st.L| && qi <= |st.L|
      reads this`head, st.L, st.out
    {
      && OutLinked(st, tail)
      && Numbered(st.L, st.index)
      && (forall j :: pi <= j < pe || qi <= j < |st.L| ==> st.L[j] in st.rest)
      && (forall j {:trigger st.L[j].next} :: pi <= j < pe || qi <= j < |st.L| ==> st.L[j].next == At(st.L, j + 1))
    }

    ghost predicate OutLinked(st: Pass<D>, tail: Node?<D>)
      reads this`head, st.out
    {
      && Numbered(st.out, st.place)
      && head == At(st.out, 0)
      && tail == (if st.out == [] then null else st.out[|st.out| - 1])
      && (forall i {:trigger st.out[i].next} :: 0 <= i < |st.out| - 1 ==> st.out[i].next == st.out[i + 1])
      && (forall i {:trigger st.out[i].prev} :: 0 <= i < |st.out| ==>
            st.out[i].prev == (if i == 0 then null else st.out[i - 1]))
      && (forall i :: 0 <= i < |st.out| ==> st.out[i] in Elems(st.L) - st.rest)
    }
  }

  // The proof's record of a pass: the list L at its start, the list so far, where each node stands in
  // the two, and the nodes still to come.
  datatype Pass<D> = Pass(L: seq<Node<D>>, index: map<Node<D>, nat>,
                          out: seq<Node<D>>, place: map<Node<D>, nat>, rest: set<Node<D>>)

  ghost predicate Numbered<D>(s: seq<Node<D>>, index: map<Node<D>, nat>) {
    forall i :: 0 <= i < |s| ==> s[i] in index && index[s[i]] == i
  }

  lemma WholePass<D>(cmp: Cmp<D>, insize: nat, st: Pass<D>)
    requires insize > 0 && Numbered(st.out, st.place)
    requires st.out + MergePass(cmp, DataOf, st.L, |st.L|, insize) == MergePass(cmp, DataOf, st.L, 0, insize)
    ensures st.out == MergePass(cmp, DataOf, st.L, 0, insize)
    ensures Distinct(st.out) && Elems(st.out) == Elems(st.L)
  {
    assert st.out + [] == st.out;
    PassElements(cmp, DataOf, st.L, 0, insize);
    Whole(st.L);
    SameMultisetElems(st.out, st.L);
    NumberedDistinct(st.out, st.place);
  }

  lemma {:induction false} Numbering<D>(s: seq<Node<D>>) returns (index: map<Node<D>, nat>)
    requires Distinct(s)
    ensures Numbered(s, index)
  {
    if s == [] {
      index := map[];
    } else {
      var init := s[..|s| - 1];
      index := Numbering(init);
      index := index[s[|s| - 1] := |s| - 1];
      forall i | 0 <= i < |s| ensures s[i] in index && index[s[i]] == i {
        if i < |s| - 1 { assert s[i] == init[i]; }
      }
    }
  }

  lemma SameMultisetElems<D>(s: seq<Node<D>>, t: seq<Node<D>>)
    requires multiset(s) == multiset(t)
    ensures Elems(s) == Elems(t)
  {
    forall n | n in s ensures n in t { assert n in multiset(s); }
    forall n | n in t ensures n in s { assert n in multiset(t); }
  }

  lemma DistinctConcat<T>(a: seq<T>, b: seq<T>)
    requires Distinct(a) && Distinct(b)
    requires forall i, j :: 0 <= i < |a| && 0 <= j < |b| ==> a[i] != b[j]
    ensures Distinct(a + b)
  {
  }

  lemma MoveToOut<T>(out: seq<T>, e: T, todo: seq<T>, rest: seq<T>)
    ensures out + (([e] + todo) + rest) == (out + [e]) + (todo + rest)
  {
  }

  lemma NumberedDistinct<D>(s: seq<Node<D>>, index: map<Node<D>, nat>)
    requires Numbered(s, index)
    ensures Distinct(s)
  {
    forall i, j | 0 <= i < j < |s| ensures s[i] != s[j] {
      assert index[s[i]] == i && index[s[j]] == j;
    }
  }
}
