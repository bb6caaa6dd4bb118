/**
 The measurements of the supervisor inside the sandbox: the processes below the experiment, the bytes in the workspace,
 and the retained part of an output stream.
 */
module Supervisor {

  // ---------------------------------------------------------------------------------------------
  // processTree
  // ---------------------------------------------------------------------------------------------

  /** `n` parent links lead from the process to the root. */
  predicate Climbs(parents: map<int, int>, root: int, pid: int, n: nat)
    decreases n
  {
    if n == 0 then pid == root
    else pid in parents && Climbs(parents, root, parents[pid], n - 1)
  }

  ghost predicate Descends(parents: map<int, int>, root: int, pid: int) {
    exists n: nat :: Climbs(parents, root, pid, n)
  }

  lemma ChildDescends(parents: map<int, int>, root: int, pid: int)
    requires pid in parents && Descends(parents, root, parents[pid])
    ensures Descends(parents, root, pid)
  {
    var n: nat :| Climbs(parents, root, parents[pid], n);
    assert Climbs(parents, root, pid, n + 1);
  }

  /** A set that contains the root and is closed under children contains every descendant. */
  lemma {:induction false} ClosedHoldsAll(parents: map<int, int>, root: int, closed: set<int>, pid: int, n: nat)
    requires root in closed && Climbs(parents, root, pid, n)
    requires forall p :: p in parents && parents[p] in closed ==> p in closed
    ensures pid in closed
    decreases n
  {
    if n > 0 {
      ClosedHoldsAll(parents, root, closed, parents[pid], n - 1);
    }
  }

  /** One pass over the process table; `order` is the order in which it lists the processes. */
  method Pass(parents: map<int, int>, root: int, order: seq<int>, before: set<int>) returns (after: set<int>, changed: bool)
    requires forall pid :: pid in order <==> pid in parents
    requires forall pid :: pid in before ==> Descends(parents, root, pid)
    ensures before <= after <= before + parents.Keys
    ensures forall pid :: pid in after ==> Descends(parents, root, pid)
    ensures changed <==> after != before
    ensures !changed ==> forall pid :: pid in parents && parents[pid] in after ==> pid in after
  {
    after, changed := before, false;
    for i := 0 to |order|
      invariant before <= after <= before + parents.Keys
      invariant forall pid :: pid in after ==> Descends(parents, root, pid)
      invariant changed <==> after != before
      invariant !changed ==> forall k :: 0 <= k < i && order[k] in parents && parents[order[k]] in after ==> order[k] in after
    {
      var pid := order[i];
      assert pid in order;
      if parents[pid] in after && pid !in after {
        ChildDescends(parents, root, pid);
        after := after + {pid};
        changed := true;
      }
    }
  }

  /** Ends, and returns exactly the root and its descendants, whatever the order of the table. */
  method ProcessTree(parents: map<int, int>, root: int, order: seq<int>) returns (descendants: set<int>)
    requires forall pid :: pid in order <==> pid in parents
    ensures forall pid :: pid in descendants <==> Descends(parents, root, pid)
  {
    descendants := {root};
    assert Climbs(parents, root, root, 0);
    var changed := true;
    while changed
      invariant root in descendants
      invariant forall pid :: pid in descendants ==> Descends(parents, root, pid)
      invariant !changed ==> forall pid :: pid in parents && parents[pid] in descendants ==> pid in descendants
      decreases parents.Keys - descendants, changed
    {
      descendants, changed := Pass(parents, root, order, descendants);
    }
    forall pid | Descends(parents, root, pid)
      ensures pid in descendants
    {
      var n: nat :| Climbs(parents, root, pid, n);
      ClosedHoldsAll(parents, root, descendants, pid, n);
    }
  }

  // ---------------------------------------------------------------------------------------------
  // workspaceBytes
  // ---------------------------------------------------------------------------------------------

  datatype Entry = Entry(name: string, node: Node)

  /** `Special` is a socket, a pipe or a device; `Gone` is what lstat cannot find. */
  datatype Node =
    | Regular(size: nat)
    | Link(size: nat)
    | Folder(entries: seq<Entry>)
    | Special
    | Gone

  /** The bytes of a tree: a link counts itself and is not followed. */
  function Bytes(node: Node): nat {
    match node
    case Regular(size) => size
    case Link(size) => size
    case Folder(entries) => EntryBytes(entries)
    case Special | Gone => 0
  }

  function EntryBytes(entries: seq<Entry>): nat {
    if entries == [] then 0 else EntryBytes(entries[..|entries| - 1]) + Bytes(entries[|entries| - 1].node)
  }

  /** Names are distinct in every folder. */
  predicate WellNamed(node: Node) {
    node.Folder? ==>
      && (forall i, j :: 0 <= i < j < |node.entries| ==> node.entries[i].name != node.entries[j].name)
      && (forall i :: 0 <= i < |node.entries| ==> WellNamed(node.entries[i].node))
  }

  type Path = seq<string>

  function Named(entries: seq<Entry>, name: string): Node {
    if entries == [] then Gone
    else if entries[0].name == name then entries[0].node
    else Named(entries[1..], name)
  }

  /** lstat: what is at the path; a link has no children. */
  function Stat(root: Node, path: Path): Node {
    if path == [] then root
    else
      var parent := Stat(root, path[..|path| - 1]);
      if parent.Folder? then Named(parent.entries, path[|path| - 1]) else Gone
  }

  function PendingBytes(root: Node, pending: seq<Path>): nat {
    if pending == [] then 0 else PendingBytes(root, pending[..|pending| - 1]) + Bytes(Stat(root, pending[|pending| - 1]))
  }

  /** How many nodes there are to visit. */
  function Size(node: Node): nat {
    1 + if node.Folder? then EntrySizes(node.entries) else 0
  }

  function EntrySizes(entries: seq<Entry>): nat {
    if entries == [] then 0 else EntrySizes(entries[..|entries| - 1]) + Size(entries[|entries| - 1].node)
  }

  function PendingSize(root: Node, pending: seq<Path>): nat {
    if pending == [] then 0 else PendingSize(root, pending[..|pending| - 1]) + Size(Stat(root, pending[|pending| - 1]))
  }

  lemma {:induction false} NamedFinds(entries: seq<Entry>, i: nat)
    requires i < |entries| && forall j, k :: 0 <= j < k < |entries| ==> entries[j].name != entries[k].name
    ensures Named(entries, entries[i].name) == entries[i].node
  {
    if i > 0 {
      NamedFinds(entries[1..], i - 1);
    }
  }

  lemma StatChild(root: Node, path: Path, i: nat)
    requires Stat(root, path).Folder? && WellNamed(Stat(root, path)) && i < |Stat(root, path).entries|
    ensures Stat(root, path + [Stat(root, path).entries[i].name]) == Stat(root, path).entries[i].node
  {
    var entries := Stat(root, path).entries;
    assert (path + [entries[i].name])[..|path|] == path;
    NamedFinds(entries, i);
  }

  lemma {:induction false} StatIsWellNamed(root: Node, path: Path)
    requires WellNamed(root)
    ensures WellNamed(Stat(root, path))
  {
    if path != [] {
      var parent := Stat(root, path[..|path| - 1]);
      StatIsWellNamed(root, path[..|path| - 1]);
      if parent.Folder? {
        NamedIsWellNamed(parent.entries, path[|path| - 1]);
      }
    }
  }

  lemma {:induction false} NamedIsWellNamed(entries: seq<Entry>, name: string)
    requires forall i :: 0 <= i < |entries| ==> WellNamed(entries[i].node)
    ensures WellNamed(Named(entries, name))
  {
    if entries != [] && entries[0].name != name {
      NamedIsWellNamed(entries[1..], name);
    }
  }

  lemma Push(root: Node, pending: seq<Path>, path: Path)
    ensures PendingBytes(root, pending + [path]) == PendingBytes(root, pending) + Bytes(Stat(root, path))
    ensures PendingSize(root, pending + [path]) == PendingSize(root, pending) + Size(Stat(root, path))
  {
    assert (pending + [path])[..|pending|] == pending;
  }

  /** Pushes the children of a folder. */
  method PushChildren(root: Node, path: Path, before: seq<Path>) returns (pending: seq<Path>)
    requires WellNamed(root) && Stat(root, path).Folder?
    ensures PendingBytes(root, pending) == PendingBytes(root, before) + Bytes(Stat(root, path))
    ensures PendingSize(root, pending) + 1 == PendingSize(root, before) + Size(Stat(root, path))
  {
    var entries := Stat(root, path).entries;
    StatIsWellNamed(root, path);
    pending := before;
    for i := 0 to |entries|
      invariant PendingBytes(root, pending) == PendingBytes(root, before) + EntryBytes(entries[..i])
      invariant PendingSize(root, pending) == PendingSize(root, before) + EntrySizes(entries[..i])
    {
      StatChild(root, path, i);
      Push(root, pending, path + [entries[i].name]);
      pending := pending + [path + [entries[i].name]];
      assert entries[..i + 1][..i] == entries[..i];
    }
    assert entries[..|entries|] == entries;
  }

  /** The walk with an explicit stack computes the bytes of the tree. */
  method WorkspaceBytes(root: Node) returns (total: nat)
    requires WellNamed(root)
    ensures total == Bytes(root)
  {
    total := 0;
    var pending: seq<Path> := [[]];
    Push(root, [], []);
    assert [] + [[]] == pending;
    while pending != []
      invariant total + PendingBytes(root, pending) == Bytes(root)
      decreases PendingSize(root, pending)
    {
      var current := pending[|pending| - 1];
      var rest := pending[..|pending| - 1];
      assert pending == rest + [current];
      Push(root, rest, current);
      var stat := Stat(root, current);
      pending := rest;
      match stat
      case Link(size) => total := total + size;
      case Folder(_) => pending := PushChildren(root, current, rest);
      case Regular(size) => total := total + size;
      case Special | Gone =>
    }
  }

  // ---------------------------------------------------------------------------------------------
  // outputCapture
  // ---------------------------------------------------------------------------------------------

  type Byte = b: int | 0 <= b < 0x100

  /** `text` is decoded leniently: a character cut at the limit becomes a replacement character. */
  datatype Captured = Captured(originalBytes: nat, sha256: string, text: string, truncated: bool)

  /** One captured stream; `hashed` is what the digest has been fed. */
  class OutputCapture {
    const limit: nat
    const digest: seq<Byte> -> string
    const decode: seq<Byte> -> string
    var hashed: seq<Byte>
    var chunks: seq<seq<Byte>>
    var originalBytes: nat
    var retainedBytes: nat

    /** Everything that was written to the stream. */
    ghost var stream: seq<Byte>

    constructor (limit: nat, digest: seq<Byte> -> string, decode: seq<Byte> -> string)
      ensures Valid() && stream == []
      ensures this.limit == limit && this.digest == digest && this.decode == decode
    {
      this.limit, this.digest, this.decode := limit, digest, decode;
      hashed, chunks, originalBytes, retainedBytes, stream := [], [], 0, 0, [];
    }

    ghost predicate Valid()
      reads this
    {
      && hashed == stream
      && originalBytes == |stream|
      && retainedBytes == Min(|stream|, limit)
      && Concat(chunks) == stream[..retainedBytes]
    }

    method Add(bytes: seq<Byte>)
      requires Valid()
      modifies this
      ensures Valid() && stream == old(stream) + bytes
    {
      Retained(stream, bytes, limit);
      originalBytes := originalBytes + |bytes|;
      hashed := hashed + bytes;
      if retainedBytes < limit {
        var retained := bytes[..Min(|bytes|, limit - retainedBytes)];
        ConcatAppend(chunks, retained);
        chunks := chunks + [retained];
        retainedBytes := retainedBytes + |retained|;
      }
      stream := stream + bytes;
    }

    /** The digest covers the whole stream, the text its longest prefix within the limit. */
    method Result() returns (r: Captured)
      requires Valid()
      ensures r.originalBytes == |stream| && r.sha256 == digest(stream)
      ensures r.text == decode(stream[..Min(|stream|, limit)])
      ensures r.truncated <==> |stream| > limit
    {
      r := Captured(originalBytes, digest(hashed), decode(Concat(chunks)), originalBytes > retainedBytes);
    }
  }

  function Min(a: nat, b: nat): nat { if a < b then a else b }

  /** What is kept of a longer stream: what was kept before, and as much of the rest as there is room for. */
  lemma Retained(stream: seq<Byte>, bytes: seq<Byte>, limit: nat)
    ensures var n := Min(|stream|, limit);
            var retained := bytes[..Min(|bytes|, limit - n)];
            && Min(|stream + bytes|, limit) == n + |retained|
            && (stream + bytes)[..n + |retained|] == stream[..n] + retained
            && (n == limit ==> retained == [])
  {
  }

  function Concat(chunks: seq<seq<Byte>>): seq<Byte> {
    if chunks == [] then [] else Concat(chunks[..|chunks| - 1]) + chunks[|chunks| - 1]
  }

  lemma ConcatAppend(chunks: seq<seq<Byte>>, chunk: seq<Byte>)
    ensures Concat(chunks + [chunk]) == Concat(chunks) + chunk
  {
    assert (chunks + [chunk])[..|chunks|] == chunks;
  }
}
