# MacDown vim-mode key handling, modelled in Dafny

This project models the small vim-style key handling layer of MacDown's
editor. It has three parts, one module each:

- `Trie` (`node.dfy`): the command trie node `Node<V>`. Each node has an
  optional key code, a dictionary of children keyed by key code, and an
  optional command of an opaque type `V`. A node is terminal exactly when
  it holds a command.
- `Matching` (`matcher.dfy`): the incremental matcher `Matcher<V>`. It
  holds the trie's root and the list `currentStates`. `Register` builds a
  chain of nodes for a key sequence. `Consume` feeds one key code: it
  returns the command of the first terminal successor and goes back to
  `[root]`, or it keeps the successors as the new states, or, when no
  state has a child for the key, it discards the whole partial sequence.
  `Consume` is proved against the specification function `Step`, and
  `Run` iterates `Step` over a key sequence. The matcher shares the
  trie's nodes by reference, so these functions read nodes: `Step` reads
  exactly the current states and their children under the key, and `Run`
  reads a given set of nodes that the predicate `Inside` shows covers
  every step. Because of these frames, a caller can carry what it knows
  about `Step` across later calls that change only the matcher.
- `VimMode` (`vim_mode_helper.dfy`): the `KEYCODE` enum with its raw
  16-bit values, and the two-mode (INSERT/NORMAL) dispatcher
  `VimModeHelper`. `HandleKey` is the source's `ayylmao`. It switches mode
  on Escape and I, runs the mapped cursor move for H/J/K/L in NORMAL mode,
  traps on Escape in NORMAL mode (its mapping is missing and the source
  force-unwraps it), and otherwise passes the key through. It is proved against the reference
  function `Dispatch`.

`Optional` (`optional.dfy`) holds the `Option` type that stands for Swift's
`T?`.

Modelling decisions:

- `Node.addChild` is declared to return nothing, but `Matcher.register`
  assigns its result to `currentPointer`. `AddChild` returns the node it
  was given, which is the node it files, so `Register` walks down the
  chain it builds.
- `addChild`'s `assert` against replacing an existing child is
  `AddChild`'s precondition. `Register` always allocates a fresh child, so
  its precondition is that the root has no child for the first key code.
  Two sequences that share a first key code cannot both be registered.
- Force-unwrapping the missing mapping for Escape in NORMAL mode is a
  runtime trap in the source. The model makes it an explicit outcome,
  `Reply.Trapped`. `NormalModeWithDefaultMappings` shows that Escape is
  the one key that reaches it.
- The cursor moves are not run. The reply names the move as a `Move` tag.
  A key event is reduced to its `UInt16` key code.
- `VimModeHelper` dispatches through its own flat mapping table and does
  not use `Matcher`, so the two are separate components.

What the code does not do:

- `register` never reuses an existing child and has no error value of its
  own. A repeated non-empty sequence trips `addChild`'s assert, which is
  `Register`'s precondition here. A repeated empty sequence overwrites the
  root's command. An empty sequence puts the action on the root, and
  `consume` never returns the root's command.
- A partial sequence is dropped only by a key that no current state has a
  child for.
- The dispatcher acts only on Escape, I, H, J, K and L, and it never feeds
  keys to a matcher.
- The VISUAL and VISUAL_BLOCK modes are commented out
  (MacDown/Code/Utility/VimModeHelper.swift:26-27).

## Model

| member | source | states |
|---|---|---|
| `VimMode.KeyCodeOf` | MacDown/Code/Utility/VimModeHelper.swift:14-21 | `KEYCODE(rawValue:)` returns case `c` exactly when `c`'s raw value is the given code, and `nil` for every code outside the six raw values |
| `VimMode.SpecialKeyCode` | MacDown/Code/Utility/VimModeHelper.swift:69-72 | true exactly for the codes 0x35, 0x4, 0x26, 0x28 and 0x25: the enum's raw values other than I (0x22) |
| `VimMode.Dispatch` | MacDown/Code/Utility/VimModeHelper.swift:74-94 | INSERT + 0x35 goes to NORMAL and is handled with no move. INSERT + any other code is passed through and the mode stays INSERT. NORMAL + 0x22 goes to INSERT and is handled. NORMAL + a code outside the enum is passed through. With no mapping table, NORMAL passes every code but 0x22 through. A special code in NORMAL runs its mapped move, or traps when it has no mapping. A move only ever runs in NORMAL mode and keeps it. Any mode change is handled with no move |
| `VimMode.DefaultKeyMappings` | MacDown/Code/Utility/VimModeHelper.swift:61-66 | the initializer's table maps exactly the keys that `specialKeyCode` accepts other than Escape (H, J, K, L), and no two keys to the same move; Escape is the one special key without a mapping |
| `VimMode.NormalModeWithDefaultMappings` | MacDown/Code/Utility/VimModeHelper.swift:56-94 | with the initializer's table, NORMAL mode maps H/J/K/L (0x4, 0x26, 0x28, 0x25) to exactly moveLeft/moveDown/moveUp/moveRight and stays NORMAL, I goes to INSERT, Escape traps on the missing mapping, and every other code is passed through |
| `VimMode.VimModeHelper.constructor` | MacDown/Code/Utility/VimModeHelper.swift:56-67 | a new helper is in INSERT mode and holds the H/J/K/L mapping table |
| `VimMode.VimModeHelper.EnterNormalMode` | MacDown/Code/Utility/VimModeHelper.swift:46-49 | the mode becomes NORMAL and nothing else changes |
| `VimMode.VimModeHelper.EnterInsertMode` | MacDown/Code/Utility/VimModeHelper.swift:51-54 | the mode becomes INSERT and nothing else changes |
| `VimMode.VimModeHelper.HandleKey` | MacDown/Code/Utility/VimModeHelper.swift:74-94 | the guard chain of the key handler yields exactly the new mode and reply that `Dispatch` gives for the old mode, the mapping table and the key code; only the mode can change |
| `Trie.Node.constructor` | MacDown/Code/Utility/Node.swift:20-26 | a new node carries the given key code, has no children and no command, and is not terminal |
| `Trie.Node.AddChild` | MacDown/Code/Utility/Node.swift:28-37 | for a node with key code `v`, requires that no child is filed under `v`; afterwards the child under `v` is that node and every other key keeps its child. A node without a key code changes nothing. The command never changes, and the given node is returned |
| `Trie.Node.GetChild` | MacDown/Code/Utility/Node.swift:39-42 | returns the child filed under `k`, or `null` exactly when there is none; reads only this node and changes nothing |
| `Trie.Node.SetCommand` | MacDown/Code/Utility/Node.swift:44-47 | afterwards `GetCommand` yields the given command, and the node is terminal exactly when that command is present; `SetCommand(None)` makes it non-terminal; only the command changes |
| `Trie.Node.DoesTerminate` | MacDown/Code/Utility/Node.swift:54-57 | a node is terminal exactly when a command is stored on it |
| `Trie.Node.GetCommand` | MacDown/Code/Utility/Node.swift:49-57 | the stored command is present exactly when `DoesTerminate` holds |
| `Matching.Successors` | MacDown/Code/Utility/Matcher.swift:35-43 | the collected successors are never more than the states, every successor is some state's child for the key, and every state's child for the key is collected |
| `Matching.FirstTerminal` | MacDown/Code/Utility/Matcher.swift:45-53 | finds the first terminal node: it is terminal and none before it is; when none is found, no node in the list is terminal |
| `Matching.Step` | MacDown/Code/Utility/Matcher.swift:33-61 | one `consume(k)`: the next states are never empty, and whenever a command is returned the states go back to `[root]` |
| `Matching.StepCases` | MacDown/Code/Utility/Matcher.swift:33-61 | the next states are never empty, and from at most one state exactly one state follows. With no successor `consume` resets to `[root]` and returns nothing, without retrying the key against the root. A command is returned exactly when some successor is terminal; it is then the first terminal successor's command, and the states reset to `[root]`. Otherwise nothing is returned and the states become exactly the successors |
| `Matching.StepFromOne` | MacDown/Code/Utility/Matcher.swift:33-61 | from a single state, `consume` fires the command of the state's child for the key if that child is terminal, moves to the child and returns nothing otherwise, and goes back to the root and returns nothing when there is no such child |
| `Matching.FeedAlongPath` | MacDown/Code/Utility/Matcher.swift:33-61 | along a chain of nodes whose only terminal is its last, feeding the chain's key codes reads only the chain and the root, and returns nothing for every key but the last, which returns the last node's command |
| `Matching.ChainRun` | MacDown/Code/Utility/Matcher.swift:21-61 | for the chain that `register` builds from the root, the chain's nodes cover feeding its key codes from `[root]`, which returns nothing for every key but the last and the action on the last |
| `Matching.RootCommandNeverReturned` | MacDown/Code/Utility/Matcher.swift:45-53 | when every child is filed under its own key code (as `AddChild` files it), the root is never a successor, so a command that `consume` returns always belongs to a node other than the root; in particular the action of an empty registration is never returned |
| `Matching.Matcher.constructor` | MacDown/Code/Utility/Matcher.swift:15-19 | a new matcher's states are exactly `[root]`; the root has no key code, no children and no command |
| `Matching.Matcher.Register` | MacDown/Code/Utility/Matcher.swift:21-31 | requires that the root has no child for the first key code; afterwards the root has gained exactly that child, a fresh node filed under its own key code, and keeps its command. It returns the chain it built: each node after the root carries its key code of the sequence, each node's child for the next key code is the next node, only the last node holds a command, and that command is the action. Feeding the registered sequence from `[root]` reads only the chain and returns nothing for every earlier key and the action on the last. An empty sequence puts the action on the root instead. Only the root and freshly allocated nodes are written, and the current states are unchanged |
| `Matching.Matcher.AppendChain` | MacDown/Code/Utility/Matcher.swift:21-31 | the loop of `register` and its final `setCommand`: one fresh node per key code, carrying that key code and filed under it in the previous node, the root gaining only the first, and the action on the last node |
| `Matching.Matcher.Consume` | MacDown/Code/Utility/Matcher.swift:33-61 | the new states and the returned command are exactly `Step` of the old states and the key, and `Valid` is kept, so between calls there is always exactly one current state; no node changes. Stated for that single state: with no child for the key it goes back to `[root]` and returns nothing; a terminal child's command is returned with a reset to `[root]`; otherwise the child becomes the state and nothing is returned |

## Left out

- The `NSTextView` cursor calls (`moveUp`, `moveDown`, `moveLeft`, `moveRight`) are foreign AppKit calls. The reply records which one would run, as a `Move` tag.
- `NSEvent` handling is reduced to the event's `keyCode`.
- The `print` logging in `enterNormalMode` and `enterInsertMode` is left out.
- The command payload `V` is an opaque type parameter, and the model never runs it.
- `Trie.Node.AddChild`: Swift's `assert` is active only in debug builds. The model takes the debug-build behaviour, so the release-build overwrite of an existing child is not modelled.
- `Matching.Matcher.Register` does not state which nodes are reached by key sequences other than the one it registers. Its frame says that only the root and freshly allocated nodes are written.
- `Matching.RootCommandNeverReturned`: the matcher keeps no ghost set of the trie's nodes, so "every child is filed under its own key code" is not an invariant of `Matcher`, and the lemma takes it as a precondition. `Register` states that the root's new child is filed under its own key code and that the root's other children are unchanged, so the property for the root carries over a registration.
- `Matching.Run`: no lemma splits a run over concatenated key sequences. Feeding keys one call at a time is covered by `Consume`'s contract, and a registered sequence by `Register`'s.
- The commented-out VISUAL and VISUAL_BLOCK modes are left out.
- MacDown/Code/View/MPEditorView.h only declares view properties and has no logic.
