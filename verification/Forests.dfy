/** Ordered forests: the shape of a document's tree, and its two traversals. */
module Forests {
  type NodeId = nat

  datatype Forest = Nil | Cons(id: NodeId, kids: Forest, rest: Forest)

  function Append(f: Forest, g: Forest): Forest {
    match f
    case Nil => g
    case Cons(id, kids, rest) => Cons(id, kids, Append(rest, g))
  }

  /** Node, then its children, then its later siblings. */
  function Pre(f: Forest): seq<NodeId> {
    match f
    case Nil => []
    case Cons(id, kids, rest) => [id] + Pre(kids) + Pre(rest)
  }

  /** Children, then the node, then its later siblings. */
  function Post(f: Forest): seq<NodeId> {
    match f
    case Nil => []
    case Cons(id, kids, rest) => Post(kids) + [id] + Post(rest)
  }

  lemma {:induction false} PreAppend(f: Forest, g: Forest)
    ensures Pre(Append(f, g)) == Pre(f) + Pre(g)
  {
    match f
    case Nil =>
    case Cons(id, kids, rest) => PreAppend(rest, g);
  }

  /** Both traversals list the same nodes equally often. */
  lemma {:induction false} PrePostPermutation(f: Forest)
    ensures multiset(Pre(f)) == multiset(Post(f))
    ensures forall x :: x in Pre(f) <==> x in Post(f)
  {
    match f
    case Nil =>
    case Cons(id, kids, rest) =>
      PrePostPermutation(kids);
      PrePostPermutation(rest);
  }
}
