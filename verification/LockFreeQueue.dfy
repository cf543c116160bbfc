/** The single-producer, single-consumer queue: a linked list whose consumed prefix the producer frees.
    Here each call runs alone; module QueueProtocol interleaves their steps. */
module LockFreeQueue {
  import opened Options

  class Node<T> {
    var value: T
    var next: Node?<T>

    constructor (value: T)
      ensures this.value == value && next == null
    {
      this.value := value;
      next := null;
    }
  }

  class LockFreeQueue<T(0)> {
    var first: Node<T>
    var divider: Node<T>
    var last: Node<T>
    var size: int
    /** The nodes from `first` to `last`, and how many of them precede `divider`. */
    ghost var chain: seq<Node<T>>
    ghost var consumed: nat

    ghost predicate Valid()
      reads this, chain
    {
      && consumed < |chain|
      && (forall i, j :: 0 <= i < j < |chain| ==> chain[i] != chain[j])
      && (forall i {:trigger chain[i].next} :: 0 <= i < |chain| - 1 ==> chain[i].next == chain[i + 1])
      && chain[|chain| - 1].next == null
      && first == chain[0] && divider == chain[consumed] && last == chain[|chain| - 1]
      && size == |chain| - 1 - consumed
    }

    ghost function Contents(): seq<T>
      requires Valid()
      reads this, chain
    {
      seq(|chain| - 1 - consumed, i requires 0 <= i < |chain| - 1 - consumed reads this, chain =>
        chain[consumed + 1 + i].value)
    }

    constructor (dummy: T)
      ensures Valid() && Contents() == [] && fresh(chain)
    {
      var node := new Node(dummy);
      first, divider, last := node, node, node;
      size := 0;
      chain, consumed := [node], 0;
    }

    /** Appends `t` and frees every node in front of the divider. */
    method Produce(t: T)
      requires Valid()
      modifies this, chain
      ensures Valid() && fresh(set n | n in chain && n !in old(chain))
      ensures Contents() == old(Contents()) + [t] && consumed == 0 && divider == old(divider)
    {
      var node := new Node(t);
      last.next := node;
      last := node;
      size := size + 1;
      chain := chain + [node];
      assert Contents() == old(Contents()) + [t];
      FreeConsumed();
    }

    method FreeConsumed()
      requires Valid()
      modifies this
      ensures Valid() && Contents() == old(Contents()) && divider == old(divider)
      ensures consumed == 0 && chain == old(chain)[old(consumed)..]
    {
      while divider != first
        invariant Valid() && divider == old(divider)
        invariant consumed <= old(consumed) && chain == old(chain)[old(consumed) - consumed..]
        decreases consumed
      {
        first := first.next;
        chain, consumed := chain[1..], consumed - 1;
      }
      assert Contents() == old(Contents());
    }

    /** Takes the oldest value, if there is one; frees nothing. */
    method Consume() returns (result: Option<T>)
      requires Valid()
      modifies this
      ensures Valid() && chain == old(chain)
      ensures if old(Contents()) == [] then result == None && Contents() == []
              else result == Some(old(Contents())[0]) && Contents() == old(Contents())[1..]
    {
      if divider != last {
        assert chain[consumed].next == chain[consumed + 1];
        result := Some(divider.next.value);
        divider := divider.next;
        size := size - 1;
        consumed := consumed + 1;
        assert Contents() == old(Contents())[1..];
        return;
      }
      return None;
    }

    method Empty() returns (empty: bool)
      requires Valid()
      ensures empty <==> Contents() == []
    {
      return size == 0;
    }
  }
}
