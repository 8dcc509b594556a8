/**
 * The circular lists that hold the resolver's requests (evdns.c): insertion at the tail and
 * removal, on linked nodes. As sequences from the head on, they are what module Resolvers works with.
 */
module CircularLists {
  import opened Lists

  class Node {
    var next: Node?
    var prev: Node?

    constructor ()
      ensures next == null && prev == null
    {
      next, prev := null, null;
    }
  }

  /** The nodes `ns` in a circle, from the head on. */
  ghost predicate Circle(head: Node?, ns: seq<Node>)
    reads ns
  {
    && head == (if ns == [] then null else ns[0])
    && NoDup(ns)
    && (forall i {:trigger ns[i].next} :: 0 <= i < |ns| ==> ns[i].next == if i + 1 < |ns| then ns[i + 1] else ns[0])
    && (forall i {:trigger ns[i].prev} :: 0 <= i < |ns| ==> ns[i].prev == if i > 0 then ns[i - 1] else ns[|ns| - 1])
  }

  /** evdns_request_insert. */
  method Insert(req: Node, head: Node?, ghost ns: seq<Node>) returns (head': Node?)
    requires Circle(head, ns) && req !in ns
    modifies req, ns
    ensures Circle(head', ns + [req])
  {
    if head == null {
      req.next, req.prev := req, req;
      return req;
    }
    req.prev := head.prev;
    req.prev.next := req;
    req.next := head;
    head.prev := req;
    head' := head;
  }

  lemma Cut(ns: seq<Node>, k: nat)
    requires NoDup(ns) && k < |ns|
    ensures NoDup(ns[..k] + ns[k + 1..]) && ns[k] !in ns[..k] + ns[k + 1..]
  {
  }

  /** evdns_request_remove. */
  method Remove(req: Node, head: Node?, ghost ns: seq<Node>, ghost k: nat) returns (head': Node?)
    requires Circle(head, ns) && k < |ns| && req == ns[k]
    modifies ns
    ensures Circle(head', ns[..k] + ns[k + 1..]) && req.next == null && req.prev == null
  {
    ghost var ms := ns[..k] + ns[k + 1..];
    Cut(ns, k);
    if req.next == req {
      head' := null;
      assert |ns| == 1;
    } else {
      req.next.prev := req.prev;
      req.prev.next := req.next;
      head' := if head == req then req.next else head;
      forall i {:trigger ms[i].next} {:trigger ms[i].prev} | 0 <= i < |ms|
        ensures ms[i].next == if i + 1 < |ms| then ms[i + 1] else ms[0]
        ensures ms[i].prev == if i > 0 then ms[i - 1] else ms[|ms| - 1]
      {
        assert ms[i] == ns[if i < k then i else i + 1];
      }
    }
    req.next, req.prev := null, null;
  }
}
