/**
 A file tree that other processes change while the engine reads it. A node is named by
 its device and inode; its stat identity carries a change stamp. Writers may do anything
 that moves the clock on and stamps what they touch.
 */
module FileTree {
  import opened Order
  import opened References

  type Name = string
  /** A relative path as its components; the engine joins them with '/'. */
  type Path = seq<Name>

  datatype NodeId = NodeId(device: nat, inode: nat)
  datatype Mode = DirectoryMode | RegularMode | OtherMode
  datatype Identity = Identity(node: NodeId, mode: Mode, size: nat, modifiedNs: nat, changedNs: nat)
  datatype Body = Directory(entries: map<Name, NodeId>) | Regular(content: Bytes) | Special
  datatype Node = Node(identity: Identity, body: Body)
  datatype Tree = Tree(nodes: map<NodeId, Node>, clock: nat)

  function ModeOf(b: Body): Mode {
    match b
    case Directory(_) => DirectoryMode
    case Regular(_) => RegularMode
    case Special => OtherMode
  }

  ghost predicate WellFormed(s: Tree) {
    forall n | n in s.nodes ::
      && s.nodes[n].identity.node == n
      && s.nodes[n].identity.mode == ModeOf(s.nodes[n].body)
      && s.nodes[n].identity.changedNs <= s.clock
  }

  predicate IsDirectory(s: Tree, d: NodeId) {
    d in s.nodes && s.nodes[d].body.Directory?
  }

  function Entries(s: Tree, d: NodeId): map<Name, NodeId>
    requires IsDirectory(s, d)
  {
    s.nodes[d].body.entries
  }

  ghost predicate HasIdentity(s: Tree, n: NodeId, id: Identity) {
    n in s.nodes && s.nodes[n].identity == id
  }

  function ModeAt(s: Tree, n: NodeId): Option<Mode> {
    if n in s.nodes then Some(s.nodes[n].identity.mode) else None
  }

  // ---- how a tree may change ------------------------------------------------------

  /** Node `n` was not touched: same identity, same content, and what it links to kept its type. */
  ghost predicate Kept(s: Tree, s': Tree, n: NodeId) {
    && n in s.nodes && n in s'.nodes
    && s.nodes[n] == s'.nodes[n]
    && (IsDirectory(s, n) ==>
          forall name | name in Entries(s, n) ::
            ModeAt(s, Entries(s, n)[name]) == ModeAt(s', Entries(s, n)[name]))
  }

  /** Whatever the writers do, a node is untouched or carries a stamp newer than the old clock. */
  ghost predicate Evolves(s: Tree, s': Tree) {
    && s.clock <= s'.clock
    && forall n | n in s'.nodes :: Kept(s, s', n) || s'.nodes[n].identity.changedNs > s.clock
  }

  /** `w(k)` is the tree at the engine's k-th system call. */
  type World = nat -> Tree

  ghost predicate History(w: World) {
    && (forall k: nat :: WellFormed(w(k)))
    && (forall k: nat :: Evolves(w(k), w(k + 1)))
  }

  lemma KeptTransitive(s: Tree, m: Tree, t: Tree, n: NodeId)
    requires Kept(s, m, n) && Kept(m, t, n)
    ensures Kept(s, t, n)
  {
    if IsDirectory(s, n) {
      assert Entries(m, n) == Entries(s, n);
    }
  }

  lemma EvolvesTransitive(s: Tree, m: Tree, t: Tree)
    requires WellFormed(s) && WellFormed(m) && WellFormed(t)
    requires Evolves(s, m) && Evolves(m, t)
    ensures Evolves(s, t)
  {
    forall n | n in t.nodes
      ensures Kept(s, t, n) || t.nodes[n].identity.changedNs > s.clock
    {
      if Kept(m, t, n) && Kept(s, m, n) {
        KeptTransitive(s, m, t, n);
      }
    }
  }

  lemma {:induction false} EvolvesOver(w: World, i: nat, j: nat)
    requires History(w) && i <= j
    ensures Evolves(w(i), w(j))
    decreases j - i
  {
    if i < j {
      EvolvesOver(w, i, j - 1);
      assert Evolves(w(j - 1), w(j - 1 + 1));
      EvolvesTransitive(w(i), w(j - 1), w(j));
    }
  }

  /** An identity seen twice belongs to one node, and that node was not touched in between. */
  lemma Steady(w: World, a: nat, t: nat, b: nat, n: NodeId, m: NodeId, id: Identity)
    requires History(w) && a <= t <= b
    requires HasIdentity(w(a), n, id) && HasIdentity(w(b), m, id)
    ensures n == m
    ensures Kept(w(a), w(t), n) && Kept(w(t), w(b), n)
  {
    EvolvesOver(w, a, t);
    EvolvesOver(w, t, b);
    assert WellFormed(w(a)) && WellFormed(w(b));
    assert n == id.node == m;
    assert n in w(b).nodes;
    assert n in w(t).nodes;
  }

  // ---- concrete writers are covered -----------------------------------------------

  datatype WriterOp =
    | Write(node: NodeId, content: Bytes)
    | Create(dir: NodeId, name: Name, node: NodeId, body: Body)
    | Link(dir: NodeId, name: Name, node: NodeId)
    | Unlink(dir: NodeId, name: Name)
    | Rename(dir: NodeId, name: Name, toDir: NodeId, toName: Name)
    | Reclaim(node: NodeId)

  ghost predicate Linked(s: Tree, n: NodeId) {
    exists d, name :: IsDirectory(s, d) && name in Entries(s, d) && Entries(s, d)[name] == n
  }

  ghost predicate Enabled(s: Tree, op: WriterOp) {
    match op
    case Write(n, _) => n in s.nodes && s.nodes[n].body.Regular?
    case Create(d, name, n, _) => IsDirectory(s, d) && name !in Entries(s, d) && n !in s.nodes && !Linked(s, n)
    case Link(d, name, n) => IsDirectory(s, d) && name !in Entries(s, d) && n in s.nodes && !IsDirectory(s, n)
    case Unlink(d, name) => IsDirectory(s, d) && name in Entries(s, d)
    case Rename(d, name, d', _) => IsDirectory(s, d) && name in Entries(s, d) && IsDirectory(s, d')
    case Reclaim(n) => n in s.nodes && !Linked(s, n)
  }

  function Stamped(n: NodeId, body: Body, clock: nat): Node {
    Node(Identity(n, ModeOf(body), if body.Regular? then |body.content| else 0, clock, clock), body)
  }

  function SetBody(s: Tree, n: NodeId, body: Body): Tree {
    Tree(s.nodes[n := Stamped(n, body, s.clock + 1)], s.clock + 1)
  }

  ghost function Apply(s: Tree, op: WriterOp): Tree
    requires Enabled(s, op)
  {
    match op
    case Write(n, content) => SetBody(s, n, Regular(content))
    case Create(d, name, n, body) =>
      SetBody(SetBody(s, n, body), d, Directory(Entries(s, d)[name := n]))
    case Link(d, name, n) => SetBody(SetBody(s, n, s.nodes[n].body), d, Directory(Entries(s, d)[name := n]))
    case Unlink(d, name) => SetBody(s, d, Directory(Entries(s, d) - {name}))
    case Rename(d, name, d', name') =>
      var moved := SetBody(s, d, Directory(Entries(s, d) - {name}));
      SetBody(moved, d', Directory(Entries(moved, d')[name' := Entries(s, d)[name]]))
    case Reclaim(n) => Tree(s.nodes - {n}, s.clock + 1)
  }

  lemma SetBodyEvolves(s: Tree, n: NodeId, body: Body)
    requires WellFormed(s)
    requires n in s.nodes ==> ModeOf(body) == ModeOf(s.nodes[n].body)
    requires n !in s.nodes ==> !Linked(s, n)
    ensures WellFormed(SetBody(s, n, body)) && Evolves(s, SetBody(s, n, body))
  {
    var s' := SetBody(s, n, body);
    forall k | k in s'.nodes ensures Kept(s, s', k) || s'.nodes[k].identity.changedNs > s.clock {
      if k != n && IsDirectory(s, k) {
        forall name | name in Entries(s, k)
          ensures ModeAt(s, Entries(s, k)[name]) == ModeAt(s', Entries(s, k)[name])
        {
          assert Entries(s, k)[name] == n ==> Linked(s, n);
        }
      }
    }
  }

  /** Writing, creating, hard-linking, unlinking, renaming and reclaiming all stay inside `Evolves`. */
  lemma WriterEvolves(s: Tree, op: WriterOp)
    requires WellFormed(s) && Enabled(s, op)
    ensures WellFormed(Apply(s, op)) && Evolves(s, Apply(s, op))
  {
    match op
    case Write(n, content) => SetBodyEvolves(s, n, Regular(content));
    case Create(d, name, n, body) =>
      SetBodyEvolves(s, n, body);
      var mid := SetBody(s, n, body);
      SetBodyEvolves(mid, d, Directory(Entries(s, d)[name := n]));
      EvolvesTransitive(s, mid, Apply(s, op));
    case Link(d, name, n) =>
      SetBodyEvolves(s, n, s.nodes[n].body);
      var mid := SetBody(s, n, s.nodes[n].body);
      SetBodyEvolves(mid, d, Directory(Entries(s, d)[name := n]));
      EvolvesTransitive(s, mid, Apply(s, op));
    case Unlink(d, name) => SetBodyEvolves(s, d, Directory(Entries(s, d) - {name}));
    case Rename(d, name, d', name') =>
      var kept := Directory(Entries(s, d) - {name});
      SetBodyEvolves(s, d, kept);
      var mid := SetBody(s, d, kept);
      SetBodyEvolves(mid, d', Directory(Entries(mid, d')[name' := Entries(s, d)[name]]));
      EvolvesTransitive(s, mid, Apply(s, op));
    case Reclaim(n) =>
      var s' := Apply(s, op);
      forall k | k in s'.nodes ensures Kept(s, s', k) {
        if IsDirectory(s, k) {
          forall name | name in Entries(s, k)
            ensures ModeAt(s, Entries(s, k)[name]) == ModeAt(s', Entries(s, k)[name])
          {
            assert Entries(s, k)[name] == n ==> Linked(s, n);
          }
        }
      }
  }
}
