/**
  The incremental sequence matcher (Matcher.swift): a state machine over
  the command trie that consumes one key code per call.

  `Successors`, `FirstTerminal`, `Step` and `Run` are the specification of
  `consume`. The matcher shares the trie's nodes by reference, so these
  functions read nodes: `Step` reads exactly the states and their children
  under the key, and `Run` reads a given set of nodes that `Inside` shows
  covers every step.
*/
module Matching {

  import opened Optional
  import opened VimMode
  import opened Trie

  /** The children filed under `k` of the nodes in `states`, in order. */
  function Successors<V>(states: seq<Node<V>>, k: KeyCode): (succ: seq<Node<V>>)
    reads states
    ensures |succ| <= |states|
    ensures forall n <- succ :: exists s <- states :: k in s.children && s.children[k] == n
    ensures forall s <- states :: k in s.children ==> s.children[k] in succ
    decreases |states|
  {
    if states == [] then []
    else
      var last := states[|states| - 1];
      var child := last.GetChild(k);
      Successors(states[..|states| - 1], k) + (if child != null then [child] else [])
  }

  /** The index of the first terminal node in `states`, if there is one. */
  function FirstTerminal<V>(states: seq<Node<V>>): (i: Option<nat>)
    reads states
    ensures i.Some? ==> i.value < |states| && states[i.value].DoesTerminate()
    ensures i.Some? ==> forall j :: 0 <= j < i.value ==> !states[j].DoesTerminate()
    ensures i.None? ==> forall j :: 0 <= j < |states| ==> !states[j].DoesTerminate()
  {
    if states == [] then None
    else if states[0].DoesTerminate() then Some(0)
    else
      match FirstTerminal(states[1..])
      case None => None
      case Some(j) => Some(j + 1)
  }

  /**
    One `consume(k)` from the states `states`: the next states and the
    command returned. It reads the states and the children they file
    under `k`, and nothing else.
  */
  function Step<V>(root: Node<V>, states: seq<Node<V>>, k: KeyCode): (next: (seq<Node<V>>, Option<V>))
    reads states, Successors(states, k)
    ensures next.0 != []
    ensures next.1.Some? ==> next.0 == [root]
  {
    var succ := Successors(states, k);
    match FirstTerminal(succ)
    case Some(i) => ([root], succ[i].command)
    case None => (if succ == [] then [root] else succ, None)
  }

  /**
    What one `consume(k)` does. The next states are never empty, and from
    at most one state exactly one state follows. With no successor it
    resets to `[root]` and returns nothing: it does not retry `k` against
    the root. A command is returned exactly when some successor is
    terminal; it is then the first terminal successor's command, and the
    states reset to `[root]`. Otherwise the states become the successors.
  */
  lemma StepCases<V>(root: Node<V>, states: seq<Node<V>>, k: KeyCode)
    ensures var next := Step(root, states, k);
      next.0 != [] && (|states| <= 1 ==> |next.0| == 1)
    ensures Successors(states, k) == [] ==> Step(root, states, k) == ([root], None)
    ensures var next := Step(root, states, k); var succ := Successors(states, k);
      next.1.Some? <==> exists n <- succ :: n.DoesTerminate()
    ensures var next := Step(root, states, k); var succ := Successors(states, k);
      next.1.Some? ==>
        next.0 == [root] &&
        exists i :: 0 <= i < |succ| && succ[i].command == next.1 &&
          forall j :: 0 <= j < i ==> !succ[j].DoesTerminate()
    ensures var next := Step(root, states, k); var succ := Successors(states, k);
      next.1.None? ==> next.0 == (if succ == [] then [root] else succ)
  {
  }

  /**
    `nodes` holds every node that feeding `ks` one key code at a time from
    `states` reads: the root, the states and, at each step, the children
    filed under the key.
  */
  ghost predicate Inside<V>(root: Node<V>, states: seq<Node<V>>, ks: seq<KeyCode>, nodes: set<Node<V>>)
    reads nodes
    decreases |ks|
  {
    root in nodes && (forall s <- states :: s in nodes) &&
    (ks != [] ==>
      (forall n <- Successors(states, ks[0]) :: n in nodes) &&
      Inside(root, Step(root, states, ks[0]).0, ks[1..], nodes))
  }

  /** The commands returned by feeding `ks` one key code at a time from `states`. */
  function Run<V>(root: Node<V>, states: seq<Node<V>>, ks: seq<KeyCode>, nodes: set<Node<V>>): (outs: seq<Option<V>>)
    requires Inside(root, states, ks, nodes)
    reads nodes
    ensures |outs| == |ks|
    decreases |ks|
  {
    if ks == [] then []
    else
      var next := Step(root, states, ks[0]);
      [next.1] + Run(root, next.0, ks[1..], nodes)
  }

  /** The nodes after the first in `path` carry the first `i` key codes of `ks`, in order. */
  ghost predicate Labelled<V>(path: seq<Node<V>>, ks: seq<KeyCode>, i: nat)
  {
    |path| == i + 1 && i <= |ks| && forall j :: 1 <= j <= i ==> path[j].value == Some(ks[j - 1])
  }

  lemma LabelledExtend<V>(path: seq<Node<V>>, ks: seq<KeyCode>, i: nat, child: Node<V>)
    requires Labelled(path, ks, i) && i < |ks| && child.value == Some(ks[i])
    ensures Labelled(path + [child], ks, i + 1)
  {
    assert forall j :: 0 <= j <= i ==> (path + [child])[j] == path[j];
  }

  /** `n` calls of `consume` that return nothing. */
  function NoMatches<V>(n: nat): (outs: seq<Option<V>>)
    ensures |outs| == n && forall i :: 0 <= i < n ==> outs[i].None?
  {
    seq(n, _ => None)
  }

  /**
    From a single state, `consume(k)` fires the command of the state's
    child for `k` if that child is terminal, moves to the child otherwise,
    and goes back to the root when there is no such child.
  */
  lemma StepFromOne<V>(root: Node<V>, s: Node<V>, k: KeyCode)
    ensures Step(root, [s], k) ==
      if k !in s.children then ([root], None)
      else
        var c := s.children[k];
        if c.DoesTerminate() then ([root], c.command) else ([c], None)
  {
    assert [s][..0] == [];
    if k in s.children {
      assert Successors([s], k) == [s.children[k]];
    } else {
      assert Successors([s], k) == [];
    }
  }

  /**
    Following a chain of nodes in which only the last is terminal, feeding
    the chain's key codes from its `j`-th node reads only the chain and the
    root, and returns nothing until the last key code, which returns the
    last node's command.
  */
  lemma {:induction false} FeedAlongPath<V>(root: Node<V>, path: seq<Node<V>>, ks: seq<KeyCode>, a: V, j: nat, nodes: set<Node<V>>)
    requires |path| == |ks| + 1 && j < |ks|
    requires forall i :: 0 <= i < |ks| ==> ks[i] in path[i].children && path[i].children[ks[i]] == path[i + 1]
    requires forall i :: 0 < i < |ks| ==> path[i].command.None?
    requires path[|ks|].command == Some(a)
    requires root in nodes && forall i :: 0 <= i < |path| ==> path[i] in nodes
    ensures Inside(root, [path[j]], ks[j..], nodes)
    ensures Run(root, [path[j]], ks[j..], nodes) == NoMatches(|ks| - 1 - j) + [Some(a)]
    decreases |ks| - j
  {
    StepFromOne(root, path[j], ks[j]);
    assert ks[j..][1..] == ks[j + 1..];
    if j + 1 < |ks| {
      FeedAlongPath(root, path, ks, a, j + 1, nodes);
    } else {
      assert Inside(root, [root], ks[j + 1..], nodes);
    }
  }

  /**
    Feeding a chain's key codes from the root, when the chain starts at the
    root and only its last node is terminal, returns nothing until the last
    key code and then the last node's command.
  */
  lemma ChainRun<V>(root: Node<V>, path: seq<Node<V>>, ks: seq<KeyCode>, a: V, nodes: set<Node<V>>)
    requires |path| == |ks| + 1 && |ks| > 0 && path[0] == root
    requires forall i :: 0 <= i < |ks| ==> ks[i] in path[i].children && path[i].children[ks[i]] == path[i + 1]
    requires forall i :: 0 < i < |ks| ==> path[i].command.None?
    requires path[|ks|].command == Some(a)
    requires nodes == set n | n in path
    ensures Inside(root, [root], ks, nodes)
    ensures Run(root, [root], ks, nodes) == NoMatches(|ks| - 1) + [Some(a)]
  {
    FeedAlongPath(root, path, ks, a, 0, nodes);
    assert ks[0..] == ks;
  }

  /** Every child of a node in `states` is filed under its own key code. */
  ghost predicate Keyed<V>(states: seq<Node<V>>)
    reads states
  {
    forall s, k :: s in states && k in s.children ==> s.children[k].value == Some(k)
  }

  /**
    A root (a node without a key code) is never a successor, so a command
    that `consume` returns never belongs to the root.
  */
  lemma RootCommandNeverReturned<V>(root: Node<V>, states: seq<Node<V>>, k: KeyCode)
    requires root.value.None? && Keyed(states)
    ensures root !in Successors(states, k)
    ensures var next := Step(root, states, k);
      next.1.Some? ==> exists n <- Successors(states, k) :: n != root && n.command == next.1
  {
    forall n <- Successors(states, k) ensures n != root {
      var s :| s in states && k in s.children && s.children[k] == n;
      assert n.value == Some(k);
    }
    StepCases(root, states, k);
  }

  class Matcher<V> {

    const root: Node<V>
    var currentStates: seq<Node<V>>

    ghost predicate Valid()
      reads this
    {
      root.value.None? && |currentStates| == 1
    }

    constructor ()
      ensures Valid() && fresh(root)
      ensures currentStates == [root]
      ensures root.value.None? && root.children == map[] && root.command.None?
    {
      var r := new Node<V>(None);
      root := r;
      currentStates := [r];
    }

    /**
      `register`: builds a fresh chain of nodes for `commands` under the
      root, one `addChild` per key code, and puts `action` on its last
      node (on the root itself when `commands` is empty). The chain's first
      node is filed under the root, so the root must not already have a
      child for the first key code. Only the root and the fresh nodes are
      written. The ghost results are the chain, from the root, and the set
      of its nodes, which is all that feeding `commands` reads.
    */
    method Register(commands: seq<KeyCode>, action: V) returns (ghost path: seq<Node<V>>, ghost nodes: set<Node<V>>)
      requires Valid()
      requires |commands| > 0 ==> commands[0] !in root.children
      modifies root
      ensures Valid()
      ensures |commands| == 0 ==> root.children == old(root.children) && root.command == Some(action)
      ensures |commands| > 0 ==>
        root.command == old(root.command) && commands[0] in root.children &&
        fresh(root.children[commands[0]]) && root.children[commands[0]].value == Some(commands[0]) &&
        root.children == old(root.children)[commands[0] := root.children[commands[0]]]
      ensures |path| == |commands| + 1 && path[0] == root
      ensures forall j :: 1 <= j <= |commands| ==> path[j].value == Some(commands[j - 1])
      ensures forall i :: 0 <= i < |commands| ==> commands[i] in path[i].children && path[i].children[commands[i]] == path[i + 1]
      ensures forall i :: 0 < i < |commands| ==> path[i].command.None?
      ensures path[|commands|].command == Some(action)
      ensures |commands| > 0 ==>
        Inside(root, [root], commands, nodes) &&
        Run(root, [root], commands, nodes) == NoMatches(|commands| - 1) + [Some(action)]
    {
      path := AppendChain(commands, action);
      nodes := set n | n in path;
      if |commands| > 0 {
        ChainRun(root, path, commands, action, nodes);
      }
    }

    /**
      The body of `register`: files a fresh node under the current pointer
      for each key code in turn, walks down to it, and puts `action` on the
      last node of the chain. Returns the chain, from the root.
    */
    method AppendChain(commands: seq<KeyCode>, action: V) returns (ghost path: seq<Node<V>>)
      requires Valid()
      requires |commands| > 0 ==> commands[0] !in root.children
      modifies root
      ensures |path| == |commands| + 1 && path[0] == root
      ensures forall j :: 1 <= j <= |commands| ==> fresh(path[j])
      ensures forall j :: 1 <= j <= |commands| ==> path[j].value == Some(commands[j - 1])
      ensures forall j :: 0 <= j < |commands| ==> commands[j] in path[j].children && path[j].children[commands[j]] == path[j + 1]
      ensures forall j :: 0 < j < |commands| ==> path[j].command.None?
      ensures path[|commands|].command == Some(action)
      ensures |commands| > 0 ==>
        root.children == old(root.children)[commands[0] := path[1]] &&
        root.command == old(root.command)
      ensures |commands| == 0 ==> root.children == old(root.children)
    {
      var currentPointer := root;
      path := [root];
      var i := 0;
      while i < |commands|
        invariant 0 <= i <= |commands|
        invariant |path| == i + 1 && path[0] == root && currentPointer == path[i]
        invariant forall j :: 1 <= j <= i ==> fresh(path[j]) && path[j].command.None?
        invariant Labelled(path, commands, i)
        invariant forall j :: 0 <= j < i ==> commands[j] in path[j].children && path[j].children[commands[j]] == path[j + 1]
        invariant forall j :: 0 <= j < i ==> path[j] != currentPointer
        invariant i > 0 ==> currentPointer.children == map[] && root.children == old(root.children)[commands[0] := path[1]]
        invariant i == 0 ==> root.children == old(root.children)
        invariant root.command == old(root.command)
      {
        var child := new Node<V>(Some(commands[i]));
        currentPointer := currentPointer.AddChild(child);
        LabelledExtend(path, commands, i, child);
        path := path + [child];
        i := i + 1;
      }
      currentPointer.SetCommand(Some(action));
    }

    /**
      `consume`: moves every current state to its child for `token`,
      returns the command of the first terminal successor (and goes back
      to the root), and discards the whole partial sequence when no state
      has such a child.
    */
    method Consume(token: KeyCode) returns (r: Option<V>)
      requires Valid()
      modifies this`currentStates
      ensures Valid()
      ensures (currentStates, r) == old(Step(root, currentStates, token))
      ensures var s := old(currentStates[0]);
        if token !in s.children then currentStates == [root] && r == None
        else
          var c := s.children[token];
          if c.DoesTerminate() then currentStates == [root] && r == c.command
          else currentStates == [c] && r == None
    {
      StepFromOne(root, currentStates[0], token);
      var newStates: seq<Node<V>> := [];
      var i := 0;
      while i < |currentStates|
        invariant 0 <= i <= |currentStates|
        invariant newStates == Successors(currentStates[..i], token)
      {
        assert currentStates[..i + 1][..i] == currentStates[..i];
        var child := currentStates[i].GetChild(token);
        if child != null {
          newStates := newStates + [child];
        }
        i := i + 1;
      }
      assert currentStates[..i] == currentStates;
      currentStates := newStates;
      i := 0;
      while i < |currentStates|
        invariant 0 <= i <= |currentStates| && currentStates == newStates
        invariant forall j :: 0 <= j < i ==> !currentStates[j].DoesTerminate()
      {
        var state := currentStates[i];
        if state.DoesTerminate() {
          currentStates := [root];
          r := state.GetCommand();
          return;
        }
        i := i + 1;
      }
      if |newStates| == 0 {
        currentStates := [root];
      }
      r := None;
    }
  }
}
