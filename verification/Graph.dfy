/** The dependency graph that a make run works on, and the run's parameters.
  *
  * Graph nodes are numbered; a node's record is spread over sequences that are
  * indexed by its number.  The edges are lists, so an edge may occur twice
  * (`a: b b` gives two edges on both sides).
  */
module Graph {
  type Node = nat

  /** The type flags of a node that the scheduler looks at. */
  datatype Attr = Attr(
    depends: bool,    // was on the left of ':'
    force: bool,      // was on the left of '!'
    doubleDep: bool,  // was on the left of '::'
    exec: bool,       // .EXEC
    join: bool,       // .JOIN
    optional: bool,   // .OPTIONAL
    ignore: bool)     // .IGNORE, or the -i flag
  {
    /** The node was never on the left of a dependency operator. */
    predicate Nop() { !depends && !force && !doubleDep }

    /** An ordinary ':' target or a mere source. */
    predicate Plain() { !force && !doubleDep && !exec && !join }
  }

  /** A command after variable expansion: `blank` if nothing is left to execute,
    * `dash` if it is prefixed by '-'. */
  datatype Command = Command(blank: bool, dash: bool)

  datatype Config = Config(
    size: nat,
    children: seq<seq<Node>>,
    parents: seq<seq<Node>>,
    preds: seq<seq<Node>>,       // .ORDER: must be made before
    successors: seq<seq<Node>>,  // .ORDER: must be made after
    attr: seq<Attr>,
    commands: seq<seq<Command>>,
    maxJobs: nat,
    maxLocal: nat,
    keepgoing: bool,             // -k
    now: int)                    // the time the run started

  function Count(xs: seq<Node>, x: Node): (k: nat)
    ensures k > 0 <==> x in xs
    ensures k <= |xs|
  {
    if xs == [] then 0 else (if xs[0] == x then 1 else 0) + Count(xs[1..], x)
  }

  predicate Within(xs: seq<Node>, n: nat) {
    forall i :: 0 <= i < |xs| ==> xs[i] < n
  }

  /** Every list of edges exists and stays inside the graph. */
  predicate Shaped(c: Config) {
    && |c.children| == |c.parents| == |c.preds| == |c.successors| == c.size
    && |c.attr| == |c.commands| == c.size
    && (forall x :: 0 <= x < c.size ==> Within(c.children[x], c.size))
    && (forall x :: 0 <= x < c.size ==> Within(c.parents[x], c.size))
    && (forall x :: 0 <= x < c.size ==> Within(c.preds[x], c.size))
    && (forall x :: 0 <= x < c.size ==> Within(c.successors[x], c.size))
  }

  /** What the parser guarantees: the two directions of every kind of edge match. */
  ghost predicate WellFormed(c: Config) {
    && Shaped(c)
    && (forall x, y :: 0 <= x < c.size && 0 <= y < c.size ==>
          Count(c.children[x], y) == Count(c.parents[y], x))
    && (forall x, y :: 0 <= x < c.size && 0 <= y < c.size ==>
          (y in c.preds[x] <==> x in c.successors[y]))
    && 1 <= c.maxLocal <= c.maxJobs
  }
}
