/**
 The XML preflight of a package: every entry must be balanced and shallow, none may bring a
 DTD, and all entries together must stay within one budget of nodes.
 */
module XmlBudget {
  import opened HwpModel

  const MAX_DEPTH := 128
  const MAX_NODES := 1_000_000

  /** What the XML reader hands over; `Malformed` stands for its own errors. */
  datatype Event = Start | Empty | End | DocType | Other | Malformed

  datatype Failure = ReadError | NodeBudget | DepthBudget | Underflow | Dtd | Unbalanced

  /** Starts minus ends. */
  function Depth(events: seq<Event>): int {
    if events == [] then 0
    else
      var last := events[|events| - 1];
      Depth(events[..|events| - 1]) + if last.Start? then 1 else if last.End? then -1 else 0
  }

  function Nodes(events: seq<Event>): nat {
    if events == [] then 0
    else Nodes(events[..|events| - 1]) + if events[|events| - 1].Start? || events[|events| - 1].Empty? then 1 else 0
  }

  predicate Readable(event: Event) {
    event != DocType && event != Malformed
  }

  predicate DepthOk(events: seq<Event>) {
    0 <= Depth(events) <= MAX_DEPTH
  }

  /** Readable throughout, never too deep and never below the root; balanced at the end. */
  ghost predicate WellFormed(events: seq<Event>) {
    && (forall i :: 0 <= i < |events| ==> Readable(events[i]))
    && (forall k :: 0 <= k <= |events| ==> DepthOk(events[..k]))
    && Depth(events) == 0
  }

  function NodesOfAll(entries: seq<seq<Event>>): nat {
    if entries == [] then 0 else NodesOfAll(entries[..|entries| - 1]) + Nodes(entries[|entries| - 1])
  }

  /** What the whole package must satisfy. */
  ghost predicate Accepted(entries: seq<seq<Event>>) {
    && (forall i :: 0 <= i < |entries| ==> WellFormed(entries[i]))
    && NodesOfAll(entries) <= MAX_NODES
  }

  lemma Step(events: seq<Event>, i: nat)
    requires i < |events|
    ensures Depth(events[..i + 1]) ==
      Depth(events[..i]) + (if events[i].Start? then 1 else if events[i].End? then -1 else 0)
    ensures Nodes(events[..i + 1]) == Nodes(events[..i]) + if events[i].Start? || events[i].Empty? then 1 else 0
  {
    assert events[..i + 1][..i] == events[..i];
  }

  lemma {:induction false} NodesOfPrefix(events: seq<Event>, k: nat)
    requires k <= |events|
    ensures Nodes(events[..k]) <= Nodes(events)
    decreases |events| - k
  {
    if k < |events| {
      Step(events, k);
      NodesOfPrefix(events, k + 1);
    } else {
      assert events[..k] == events;
    }
  }

  lemma {:induction false} NodesOfPrefixes(entries: seq<seq<Event>>, k: nat)
    requires k <= |entries|
    ensures NodesOfAll(entries[..k]) <= NodesOfAll(entries)
    decreases |entries| - k
  {
    if k < |entries| {
      assert entries[..k + 1][..k] == entries[..k];
      NodesOfPrefixes(entries, k + 1);
    } else {
      assert entries[..k] == entries;
    }
  }

  class Preflight {
    /** Nodes met so far, over all entries. */
    var nodes: nat

    constructor ()
      ensures nodes == 0
    {
      nodes := 0;
    }

    /** Reads one entry; without failure, its nodes are counted and it is well formed. */
    method ReadEntry(events: seq<Event>) returns (failure: Option<Failure>)
      requires nodes <= MAX_NODES
      modifies this
      ensures failure == None <==> WellFormed(events) && old(nodes) + Nodes(events) <= MAX_NODES
      ensures failure == None ==> nodes == old(nodes) + Nodes(events)
    {
      hide Depth, Nodes;
      var depth := 0;
      var i := 0;
      Nothing();
      assert events[..0] == [];
      while i < |events|
        invariant 0 <= i <= |events| && depth == Depth(events[..i])
        invariant nodes == old(nodes) + Nodes(events[..i]) <= MAX_NODES
        invariant forall j :: 0 <= j < i ==> Readable(events[j])
        invariant forall k :: 0 <= k <= i ==> DepthOk(events[..k])
      {
        Step(events, i);
        NodesOfPrefix(events, i + 1);
        match events[i] {
          case Malformed =>
            assert !Readable(events[i]);
            return Some(ReadError);
          case Start =>
            nodes := nodes + 1;
            depth := depth + 1;
            if nodes > MAX_NODES {
              return Some(NodeBudget);
            }
            if depth > MAX_DEPTH {
              assert !DepthOk(events[..i + 1]);
              return Some(DepthBudget);
            }
          case Empty =>
            nodes := nodes + 1;
            if nodes > MAX_NODES {
              return Some(NodeBudget);
            }
          case End =>
            if depth == 0 {
              assert !DepthOk(events[..i + 1]);
              return Some(Underflow);
            }
            depth := depth - 1;
          case DocType =>
            assert !Readable(events[i]);
            return Some(Dtd);
          case Other =>
        }
        assert DepthOk(events[..i + 1]);
        i := i + 1;
      }
      assert events[..i] == events;
      if depth != 0 {
        return Some(Unbalanced);
      }
      return None;
    }
  }

  lemma Nothing()
    ensures Depth([]) == 0 && Nodes([]) == 0
  {
  }

  /** All entries in order; the node count runs on from entry to entry. */
  method ReadPackage(entries: seq<seq<Event>>) returns (accepted: bool)
    ensures accepted <==> Accepted(entries)
  {
    hide WellFormed, Nodes;
    var preflight := new Preflight();
    var i := 0;
    while i < |entries|
      invariant 0 <= i <= |entries|
      invariant preflight.nodes == NodesOfAll(entries[..i]) <= MAX_NODES
      invariant forall j :: 0 <= j < i ==> WellFormed(entries[j])
      invariant fresh(preflight)
    {
      assert entries[..i + 1][..i] == entries[..i];
      NodesOfPrefixes(entries, i + 1);
      var failure := preflight.ReadEntry(entries[i]);
      if failure != None {
        return false;
      }
      i := i + 1;
    }
    assert entries[..i] == entries;
    return true;
  }
}
