/** The managed file tree: what one `lstat` plus a content digest can observe. */
module Disk {
  import opened Wrappers

  type Path = seq<string>

  datatype Kind = Regular | Directory

  datatype Authority = Authority(mode: nat, uid: nat, gid: nat)

  /** `id` is the (device, inode) pair; `digest` names the content. */
  datatype Node = Node(id: nat, kind: Kind, digest: nat, auth: Authority)

  type Tree = map<Path, Node>

  const PRIVATE_FILE: nat := 0x180 // 0600
  const PRIVATE_DIR: nat := 0x1C0  // 0700

  function Lookup(t: Tree, p: Path): Option<Node> {
    if p in t then Some(t[p]) else None
  }

  function Parent(p: Path): Path
    requires p != []
  { p[..|p| - 1] }

  predicate ChildOf(q: Path, p: Path) {
    q != [] && Parent(q) == p
  }

  predicate IsDirectory(t: Tree, p: Path) {
    p in t && t[p].kind == Directory
  }

  predicate EmptyDirectory(t: Tree, p: Path) {
    forall q :: q in t ==> !ChildOf(q, p)
  }

  /** Every entry's parent directory is an entry too. */
  ghost predicate ParentClosed(t: Tree) {
    forall q :: q in t && q != [] ==> Parent(q) in t
  }
}
