/**
  The command trie's node (Node.swift). A node is keyed by the key code on
  the edge that leads to it (none for a root), owns a child per key code,
  and is terminal exactly when it holds a command. The command type `V` is
  opaque: the trie stores and returns commands but never runs them.
*/
module Trie {

  import opened Optional
  import opened VimMode

  class Node<V> {

    const value: Option<KeyCode>
    var children: map<KeyCode, Node<V>>
    /** The command to execute when a key sequence ends at this node. */
    var command: Option<V>

    constructor (v: Option<KeyCode>)
      ensures value == v
      ensures children == map[]
      ensures command.None? && !DoesTerminate()
    {
      value := v;
      children := map[];
      command := None;
    }

    /**
      Files `node` under its own key code. The source's `assert` against
      replacing an existing child is the precondition; a node without a key
      code is not filed. Returns the node it was given (see README).
    */
    method AddChild(node: Node<V>) returns (added: Node<V>)
      requires node.value.Some? ==> node.value.value !in children
      modifies this
      ensures added == node
      ensures node.value.Some? ==> children == old(children)[node.value.value := node]
      ensures node.value.None? ==> children == old(children)
      ensures command == old(command)
    {
      if node.value.Some? {
        var v := node.value.value;
        children := children[v := node];
      }
      added := node;
    }

    /** The child filed under `k`, or `null` when there is none. */
    function GetChild(k: KeyCode): (child: Node?<V>)
      reads this
      ensures child != null <==> k in children
      ensures child != null ==> child == children[k]
    {
      if k in children then children[k] else null
    }

    method SetCommand(c: Option<V>)
      modifies this`command
      ensures GetCommand() == c
      ensures DoesTerminate() <==> c.Some?
    {
      command := c;
    }

    function GetCommand(): (c: Option<V>)
      reads this
      ensures c.Some? <==> DoesTerminate()
    {
      command
    }

    /** A node is terminal when a command is stored on it. */
    predicate DoesTerminate(): (terminal: bool)
      reads this
      ensures terminal <==> command != None
    {
      command.Some?
    }
  }
}
