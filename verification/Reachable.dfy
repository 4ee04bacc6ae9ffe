/**
 Which nodes a path from the root leads to. Soundness lists every node once, but a directory moved below
 itself would be listed in a cycle that no path enters; `op_rename` in vnmcore/src/fs/fuse.rs does not look.
 */
module Reachable {
  import opened Wrappers
  import opened VaultFs
  import opened Handle
  import opened Fs
  import opened FsState
  import opened DirSteps

  type Parents = map<nat, nat>

  /** The n-th directory above x, stopping at a node without parent. */
  function Up(parent: Parents, x: nat, n: nat): nat
    decreases n
  {
    if n == 0 || x !in parent then x else Up(parent, parent[x], n - 1)
  }

  /** x is y or lies somewhere below it. */
  ghost predicate Under(parent: Parents, x: nat, y: nat) {
    exists n: nat :: Up(parent, x, n) == y
  }

  /** A path from the root leads to every listed node. */
  ghost predicate Rooted(parent: Parents, root: nat) {
    root !in parent && forall x :: x in parent ==> Under(parent, x, root)
  }

  lemma {:induction false} UpMore(parent: Parents, x: nat, n: nat)
    ensures Up(parent, x, n + 1) == if Up(parent, x, n) in parent then parent[Up(parent, x, n)] else Up(parent, x, n)
    ensures Up(parent, x, n) !in parent ==> Up(parent, x, n + 1) !in parent
    decreases n
  {
    if n > 0 && x in parent { UpMore(parent, parent[x], n - 1); }
  }

  lemma {:induction false} UpAbove(parent: Parents, x: nat, n: nat, m: nat)
    requires n <= m && Up(parent, x, n) !in parent
    ensures Up(parent, x, m) == Up(parent, x, n)
    decreases m
  {
    if n < m {
      UpAbove(parent, x, n, m - 1);
      UpMore(parent, x, m - 1);
    }
  }

  // ── Moving ────────────────────────────────────────────────────────────────

  /** A path that does not meet x is the same after x was moved. */
  lemma {:induction false} PathKept(parent: Parents, x: nat, d: nat, y: nat, n: nat)
    requires !Under(parent, y, x)
    ensures Up(parent[x := d], y, n) == Up(parent, y, n)
    decreases n
  {
    assert Up(parent, y, 0) == y;
    if n > 0 && y in parent {
      forall k: nat ensures Up(parent, parent[y], k) != x {
        assert Up(parent, y, k + 1) == Up(parent, parent[y], k);
      }
      PathKept(parent, x, d, parent[y], n - 1);
    }
  }

  lemma {:induction false} StillRooted(parent: Parents, root: nat, x: nat, d: nat, y: nat, n: nat)
    requires root !in parent && x in parent && Up(parent, y, n) == root
    requires Under(parent, d, root) && !Under(parent, d, x)
    ensures Under(parent[x := d], y, root)
    decreases n
  {
    var moved := parent[x := d];
    if y == root {
      assert Up(moved, y, 0) == root;
    } else if y == x {
      var m: nat :| Up(parent, d, m) == root;
      PathKept(parent, x, d, d, m);
      assert Up(moved, x, m + 1) == root;
    } else {
      StillRooted(parent, root, x, d, parent[y], n - 1);
      var m: nat :| Up(moved, parent[y], m) == root;
      assert Up(moved, y, m + 1) == root;
    }
  }

  /** Moved below itself, x leads back to itself: the path from any node between never comes to the root. */
  lemma {:induction false} AroundAndAround(parent: Parents, root: nat, x: nat, d: nat, n: nat, i: nat, m: nat)
    requires root !in parent && x in parent && Up(parent, d, n) == x && i <= n
    requires forall j: nat :: j < n ==> Up(parent, d, j) != x
    ensures Up(parent[x := d], Up(parent, d, i), m) != root
    decreases m
  {
    var moved, y := parent[x := d], Up(parent, d, i);
    if y !in parent { UpAbove(parent, d, i, n); }
    if m > 0 {
      if i < n {
        UpMore(parent, d, i);
        AroundAndAround(parent, root, x, d, n, i + 1, m - 1);
      } else {
        AroundAndAround(parent, root, x, d, n, 0, m - 1);
      }
    }
  }

  /** The first time that the path from d meets x. */
  lemma {:induction false} FirstMeeting(parent: Parents, d: nat, x: nat, n: nat) returns (k: nat)
    requires Up(parent, d, n) == x
    ensures Up(parent, d, k) == x && forall j: nat :: j < k ==> Up(parent, d, j) != x
    decreases n
  {
    if j: nat :| j < n && Up(parent, d, j) == x {
      k := FirstMeeting(parent, d, x, j);
    } else {
      k := n;
    }
  }

  /** Moving x to d leaves every node reachable if and only if d is neither x nor below it. */
  lemma MoveKeepsRooted(parent: Parents, root: nat, x: nat, d: nat)
    requires Rooted(parent, root) && x in parent && (d in parent || d == root)
    ensures Rooted(parent[x := d], root) <==> !Under(parent, d, x)
  {
    var moved := parent[x := d];
    assert Up(parent, root, 0) == root;
    if Under(parent, d, x) {
      var n: nat :| Up(parent, d, n) == x;
      var k := FirstMeeting(parent, d, x, n);
      forall m: nat ensures Up(moved, x, m) != root {
        AroundAndAround(parent, root, x, d, k, k, m);
      }
      assert x in moved && !Under(moved, x, root);
    } else {
      forall y | y in moved ensures Under(moved, y, root) {
        assert Under(parent, y, root);
        var n: nat :| Up(parent, y, n) == root;
        StillRooted(parent, root, x, d, y, n);
      }
    }
  }

  // ── Adding and removing ───────────────────────────────────────────────────

  /** A new node in a reachable directory is reachable. */
  lemma AddKeepsRooted(parent: Parents, root: nat, x: nat, d: nat)
    requires Rooted(parent, root) && x !in parent && x != root && (d in parent || d == root)
    requires forall y :: y in parent ==> parent[y] != x
    ensures Rooted(parent[x := d], root)
  {
    assert Up(parent, root, 0) == root;
    var more := parent[x := d];
    forall y | y in parent || y == root ensures Under(more, y, root) {
      assert Under(parent, y, root);
      var n: nat :| Up(parent, y, n) == root;
      SamePath(parent, more, root, y, n, x);
    }
    var m: nat :| Up(more, d, m) == root;
    assert Up(more, x, m + 1) == root;
  }

  /** A path on which both maps agree. */
  lemma {:induction false} SamePath(parent: Parents, parent': Parents, root: nat, y: nat, n: nat, x: nat)
    requires Up(parent, y, n) == root && root !in parent && y != x && root != x && root !in parent'
    requires forall z :: z in parent ==> parent[z] != x
    requires forall z :: z in parent && z != x ==> z in parent' && parent'[z] == parent[z]
    ensures Up(parent', y, n) == root
    decreases n
  {
    if n > 0 && y in parent { SamePath(parent, parent', root, parent[y], n - 1, x); }
  }

  /** Without a leaf everything else stays reachable. */
  lemma RemoveKeepsRooted(parent: Parents, root: nat, x: nat)
    requires Rooted(parent, root) && x != root && forall y :: y in parent ==> parent[y] != x
    ensures Rooted(parent - {x}, root)
  {
    forall y | y in parent - {x} ensures Under(parent - {x}, y, root) {
      assert Under(parent, y, root);
      var n: nat :| Up(parent, y, n) == root;
      SamePath(parent, parent - {x}, root, y, n, x);
    }
  }

  // ── The driver's operations ───────────────────────────────────────────────

  /** What a sound state says of parents. */
  lemma ParentsOf(s: State)
    requires Sound(s)
    ensures s.root !in s.parent && s.root in s.nodes
    ensures forall x :: x in s.parent || x == s.root <==> x in s.nodes && (s.nodes[x].Directory? || s.nodes[x].File?)
    ensures forall x :: x in s.parent ==> s.parent[x] in s.nodes && s.nodes[s.parent[x]].Directory?
  {
    hide FilesSound;
    hide HandlesSound;
    hide KnownSound;
    forall x ensures x in s.parent || x == s.root <==> x in s.nodes && (s.nodes[x].Directory? || s.nodes[x].File?) {
      assert x in s.parent.Keys + {s.root} <==> x in Dirs(s.nodes).Keys + Heads(s.nodes);
    }
    forall x | x in s.parent ensures s.parent[x] in s.nodes && s.nodes[s.parent[x]].Directory? {
      assert s.parent[x] in Listed(Dirs(s.nodes));
    }
  }

  /** A new node, directory or file, is reachable where its directory is. */
  lemma AddedRooted(s: State, d: nat, x: nat)
    requires Sound(s) && Rooted(s.parent, s.root) && d in s.nodes && s.nodes[d].Directory? && x !in s.nodes
    ensures Rooted(s.parent[x := d], s.root)
  {
    hide Sound;
    ParentsOf(s);
    AddKeepsRooted(s.parent, s.root, x, d);
  }

  /** Whatever else a removal leaves behind, if the state is sound then every listed node is reachable. */
  lemma RemovedRooted(s: State, s': State, x: nat)
    requires Sound(s) && Sound(s') && Rooted(s.parent, s.root)
    requires s'.parent == s.parent - {x} && s'.root == s.root && x in s.parent && x !in s'.nodes && s.parent[x] != x
    ensures Rooted(s'.parent, s'.root)
  {
    hide Sound;
    ParentsOf(s);
    ParentsOf(s');
    forall y | y in s.parent ensures s.parent[y] != x {
      assert y == x || (y in s'.parent && s'.parent[y] == s.parent[y]);
    }
    RemoveKeepsRooted(s.parent, s.root, x);
  }

  /**
   A rename that leaves a sound state keeps every listed node reachable if and only if the new parent is
   neither the moved node nor below it.
   */
  lemma RenamedRooted(s: State, d: nat, name: string, d': nat, newName: string)
    requires Sound(s) && ListedAt(s.nodes, Some(d), name).Ok? && d' in s.nodes && s.nodes[d'].Directory?
    requires d' !in Replaced(MovedOut(s.nodes, d, name), d', newName)
    requires Rooted(s.parent, s.root) && Sound(Renamed(s, d, name, d', newName))
    ensures Rooted(Renamed(s, d, name, d', newName).parent, s.root) <==>
              !Under(s.parent, d', SlotNamed(s.nodes, d, name))
  {
    hide Sound;
    hide FindName;
    hide Unlisted;
    hide PlacedIn;
    var x, gone := SlotNamed(s.nodes, d, name), Replaced(MovedOut(s.nodes, d, name), d', newName);
    var s' := Renamed(s, d, name, d', newName);
    ParentsOf(s);
    ListedNode(s, Some(d), name);
    RenameTarget(s, d, name, d', newName);
    MoveKeepsRooted(s.parent, s.root, x, d');
    if v :| v in gone {
      assert gone == {v};
      ReplacedLeaf(s, s', x, d', v);
    } else {
      assert s.parent - gone == s.parent;
    }
  }

  /** Taking out a leaf below d' as well makes no difference. */
  lemma ReplacedLeaf(s: State, s': State, x: nat, d': nat, v: nat)
    requires Sound(s) && Sound(s') && x in s.parent && x != v && v != d' && v in s.parent && s.parent[v] == d'
    requires s'.parent == (s.parent - {v})[x := d'] && s'.root == s.root && v !in s'.nodes
    ensures Rooted(s'.parent, s.root) <==> Rooted(s.parent[x := d'], s.root)
  {
    hide Sound;
    ParentsOf(s);
    ParentsOf(s');
    var moved := s.parent[x := d'];
    assert s'.parent == moved - {v} && s'.parent[v := d'] == moved;
    forall y | y in moved ensures moved[y] != v {
      assert y == v || y in s'.parent;
    }
    if Rooted(moved, s.root) { RemoveKeepsRooted(moved, s.root, v); }
    if Rooted(s'.parent, s.root) { AddKeepsRooted(s'.parent, s.root, v, d'); }
  }
}
