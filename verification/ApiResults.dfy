/**
 The linked list of API results that the camera state machine posts and the API callers consume.
 Both operations run under `m_lock`.
 */
module ApiResults {
  import opened Wrappers
  import opened Filters

  /** What the state machine answers: the request it answers and a status. */
  datatype Result = Result(requestApi: nat, status: int)

  /** The position of the first result for an event, or the number of results. */
  function FirstFor(results: seq<Result>, evt: nat): (i: nat)
    ensures i <= |results| && forall j :: 0 <= j < i ==> results[j].requestApi != evt
    ensures i < |results| ==> results[i].requestApi == evt
  {
    if results == [] || results[0].requestApi == evt then 0 else 1 + FirstFor(results[1..], evt)
  }

  lemma FirstForUnique(results: seq<Result>, evt: nat, i: nat)
    requires i <= |results| && (i < |results| ==> results[i].requestApi == evt)
    requires forall j :: 0 <= j < i ==> results[j].requestApi != evt
    ensures FirstFor(results, evt) == i
  {
  }

  class ResultNode {
    const result: Result
    var next: ResultNode?

    constructor (result: Result)
      ensures this.result == result && next == null
    {
      this.result, next := result, null;
    }
  }

  /** The node after position i. */
  function NodeAt(nodes: seq<ResultNode>, i: nat): ResultNode? {
    if i < |nodes| then nodes[i] else null
  }

  function Results(nodes: seq<ResultNode>): seq<Result> {
    seq(|nodes|, i requires 0 <= i < |nodes| => nodes[i].result)
  }

  /** Positions before i stay, positions behind it move down by one. */
  lemma WithoutAt<T>(s: seq<T>, i: nat)
    requires i < |s|
    ensures |Without(s, i)| == |s| - 1
    ensures forall k :: 0 <= k < |s| - 1 ==> Without(s, i)[k] == s[if k < i then k else k + 1]
    ensures forall x :: x in Without(s, i) ==> x in s
  {
  }

  class ResultList {
    var head: ResultNode?
    ghost var nodes: seq<ResultNode>

    ghost predicate Valid()
      reads this, nodes
    {
      && head == NodeAt(nodes, 0)
      && (forall i :: 0 <= i < |nodes| ==> nodes[i].next == NodeAt(nodes, i + 1))
      && (forall i, j :: 0 <= i < j < |nodes| ==> nodes[i] != nodes[j])
    }

    ghost function Pending(): seq<Result>
      reads this
    {
      Results(nodes)
    }

    constructor ()
      ensures Valid() && Pending() == []
    {
      head, nodes := null, [];
    }

    /** The list part of `signalAPIResult`: the result goes to the end. */
    method Signal(result: Result)
      requires Valid()
      modifies this, nodes
      ensures Valid() && forall n :: n in nodes ==> n in old(nodes) || fresh(n)
      ensures Pending() == old(Pending()) + [result]
    {
      var added := new ResultNode(result);
      if head == null {
        head := added;
      } else {
        var last := head;
        ghost var i := 0;
        while last.next != null
          invariant 0 <= i < |nodes| && last == nodes[i]
          decreases |nodes| - i
        {
          last, i := last.next, i + 1;
        }
        last.next := added;
      }
      nodes := nodes + [added];
    }

    /** The pointer updates that take a node out of the list. */
    method Unlink(previous: ResultNode, node: ResultNode, ghost i: nat)
      requires Valid() && i < |nodes| && node == nodes[i] && previous == nodes[if i == 0 then 0 else i - 1]
      modifies this, previous
      ensures Valid() && nodes == Without(old(nodes), i)
    {
      hide Without;
      WithoutAt(nodes, i);
      previous.next := node.next;
      if node == head {
        head := node.next;
      }
      nodes := Without(nodes, i);
    }

    /** The walk to the first result for an event, with a pointer to the node before it. */
    method Find(evt: nat) returns (previous: ResultNode?, node: ResultNode?, ghost i: nat)
      requires Valid()
      ensures i == FirstFor(Pending(), evt) && node == NodeAt(nodes, i)
      ensures previous == NodeAt(nodes, if i == 0 then 0 else i - 1)
    {
      previous, node, i := head, head, 0;
      while node != null && node.result.requestApi != evt
        invariant i <= |nodes| && node == NodeAt(nodes, i) && previous == NodeAt(nodes, if i == 0 then 0 else i - 1)
        invariant forall j :: 0 <= j < i ==> nodes[j].result.requestApi != evt
        decreases |nodes| - i
      {
        previous, node, i := node, node.next, i + 1;
      }
      FirstForUnique(Pending(), evt, i);
    }

    /** One scan of `waitAPIResult`: the first result for the event is unlinked. */
    method Take(evt: nat) returns (taken: Option<Result>)
      requires Valid()
      modifies this, nodes
      ensures Valid() && forall n :: n in nodes ==> n in old(nodes)
      ensures var i := FirstFor(old(Pending()), evt);
        if i == |old(Pending())| then taken == None && Pending() == old(Pending())
        else taken == Some(old(Pending())[i]) && Pending() == Without(old(Pending()), i)
    {
      taken := None;
      var previous, node, i := Find(evt);
      if node != null {
        taken := Some(node.result);
        Unlink(previous, node, i);
      }
    }
  }
}
