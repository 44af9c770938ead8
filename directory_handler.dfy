/**
  The inventory collector (`DirectoryHandler.gather_files_data`): one item per immediate child of a
  watched directory that is a file or a directory, a directory being sized by walking its whole subtree.
*/
module DirectoryHandler {
  import opened Text
  import opened Paths

  /**
    A directory entry as the operating system reports it.  `Other` stands for anything that is
    neither a regular file nor a directory (sockets, devices, symbolic links).  The model counts an
    `Other` entry as holding no bytes, although `os.walk` lists it among a directory's file names and
    `os.stat` follows a link to its target.
  */
  datatype Node =
    | File(name: string, size: nat, mtime: int)
    | Dir(name: string, mtime: int, children: seq<Node>)
    | Other(name: string)

  /** One inventory record, `{'item': (path, size, mtime)}`. */
  datatype Item = Item(path: string, size: nat, mtime: int)

  /** The bytes held by the regular files in the subtree rooted at `n`, at any depth. */
  function TreeSize(n: Node): nat
    decreases n
  {
    match n
    case File(_, size, _) => size
    case Dir(_, _, children) => ForestSize(children)
    case Other(_) => 0
  }

  /** The bytes held by the regular files below all of `cs`. */
  function ForestSize(cs: seq<Node>): nat
    decreases cs
  {
    if cs == [] then 0 else TreeSize(cs[0]) + ForestSize(cs[1..])
  }

  function Sum(xs: seq<nat>): nat {
    if xs == [] then 0 else Sum(xs[..|xs| - 1]) + xs[|xs| - 1]
  }

  function SumAll(xss: seq<seq<nat>>): nat {
    if xss == [] then 0 else SumAll(xss[..|xss| - 1]) + Sum(xss[|xss| - 1])
  }

  /**
    The sizes the model counts for the `filenames` one `os.walk` step lists for a directory: those of
    the regular files among `cs`; the other non-directory entries it lists are left out.
  */
  function FileSizes(cs: seq<Node>): seq<nat> {
    if cs == [] then []
    else (if cs[0].File? then [cs[0].size] else []) + FileSizes(cs[1..])
  }

  /** `os.walk(n)`, top-down, reduced to the file sizes listed at each directory it visits. */
  function Walk(n: Node): seq<seq<nat>>
    decreases n
  {
    if n.Dir? then [FileSizes(n.children)] + WalkForest(n.children) else []
  }

  /** The walks of the subdirectories among `cs`, in scan order. */
  function WalkForest(cs: seq<Node>): seq<seq<nat>>
    decreases cs
  {
    if cs == [] then [] else Walk(cs[0]) + WalkForest(cs[1..])
  }

  lemma {:induction false} SumConcat(a: seq<nat>, b: seq<nat>)
    ensures Sum(a + b) == Sum(a) + Sum(b)
    decreases |b|
  {
    if b != [] {
      assert (a + b)[..|a + b| - 1] == a + b[..|b| - 1];
      SumConcat(a, b[..|b| - 1]);
    } else {
      assert a + b == a;
    }
  }

  lemma {:induction false} SumAllConcat(a: seq<seq<nat>>, b: seq<seq<nat>>)
    ensures SumAll(a + b) == SumAll(a) + SumAll(b)
    decreases |b|
  {
    if b != [] {
      assert (a + b)[..|a + b| - 1] == a + b[..|b| - 1];
      SumAllConcat(a, b[..|b| - 1]);
    } else {
      assert a + b == a;
    }
  }

  /** Summing everything `os.walk` lists below the entries `cs` gives the bytes of all files beneath them. */
  lemma {:induction false} WalkForestSize(cs: seq<Node>)
    ensures Sum(FileSizes(cs)) + SumAll(WalkForest(cs)) == ForestSize(cs)
    decreases cs
  {
    if cs != [] {
      var head := if cs[0].File? then [cs[0].size] else [];
      SumConcat(head, FileSizes(cs[1..]));
      SumAllConcat(Walk(cs[0]), WalkForest(cs[1..]));
      WalkForestSize(cs[1..]);
      if cs[0].Dir? {
        WalkSize(cs[0]);
      } else {
        assert head == [] ==> Sum(head) == 0;
        assert head != [] ==> head[..0] == [];
      }
    }
  }

  /** Summing everything `os.walk` lists in a directory's subtree gives that directory's size. */
  lemma {:induction false} WalkSize(d: Node)
    requires d.Dir?
    ensures SumAll(Walk(d)) == TreeSize(d)
    decreases d, 1
  {
    SumAllConcat([FileSizes(d.children)], WalkForest(d.children));
    assert [FileSizes(d.children)][..0] == [];
    WalkForestSize(d.children);
  }

  /**
    The size `gather_files_data` computes for a directory: the running total over every
    file name of every directory `os.walk` visits.
  */
  method WalkTotal(d: Node) returns (totalSize: nat)
    requires d.Dir?
    ensures totalSize == TreeSize(d)
  {
    var walk := Walk(d);
    totalSize := 0;
    var i := 0;
    while i < |walk|
      invariant 0 <= i <= |walk|
      invariant totalSize == SumAll(walk[..i])
    {
      var filenames := walk[i];
      var j := 0;
      while j < |filenames|
        invariant 0 <= j <= |filenames|
        invariant totalSize == SumAll(walk[..i]) + Sum(filenames[..j])
      {
        assert filenames[..j + 1][..j] == filenames[..j];
        totalSize := totalSize + filenames[j];
        j := j + 1;
      }
      assert filenames[..j] == filenames;
      assert walk[..i + 1][..i] == walk[..i];
      i := i + 1;
    }
    assert walk[..i] == walk;
    WalkSize(d);
  }

  /** Entries `gather_files_data` records: regular files and directories. */
  predicate Listed(n: Node) {
    n.File? || n.Dir?
  }

  /** The record for a listed child of `dirPath`: a file's own size, or a directory's subtree size paired with the directory's own mtime. */
  function ItemOf(dirPath: string, n: Node): Item
    requires Listed(n)
  {
    Item(Join(dirPath, n.name), TreeSize(n), n.mtime)
  }

  /** What `gather_files_data` returns for a directory whose `os.scandir` listing is `entries`. */
  function Inventory(dirPath: string, entries: seq<Node>): seq<Item> {
    if entries == [] then []
    else
      var last := entries[|entries| - 1];
      Inventory(dirPath, entries[..|entries| - 1]) + (if Listed(last) then [ItemOf(dirPath, last)] else [])
  }

  /** `DirectoryHandler(dirPath).gather_files_data()` over the scan `entries` of `dirPath`. */
  method GatherFilesData(dirPath: string, entries: seq<Node>) returns (filesData: seq<Item>)
    ensures filesData == Inventory(dirPath, entries)
  {
    filesData := [];
    var i := 0;
    while i < |entries|
      invariant 0 <= i <= |entries|
      invariant filesData == Inventory(dirPath, entries[..i])
    {
      var entry := entries[i];
      assert entries[..i + 1][..i] == entries[..i];
      if entry.File? {
        filesData := filesData + [Item(Join(dirPath, entry.name), entry.size, entry.mtime)];
      } else if entry.Dir? {
        var totalSize := WalkTotal(entry);
        filesData := filesData + [Item(Join(dirPath, entry.name), totalSize, entry.mtime)];
      }
      i := i + 1;
    }
    assert entries[..i] == entries;
  }

  /** Records follow scan order: the inventory of a concatenated listing is the concatenation of the inventories. */
  lemma {:induction false} InventoryConcat(dirPath: string, a: seq<Node>, b: seq<Node>)
    ensures Inventory(dirPath, a + b) == Inventory(dirPath, a) + Inventory(dirPath, b)
    decreases |b|
  {
    if b == [] {
      assert a + b == a;
    } else {
      assert (a + b)[..|a + b| - 1] == a + b[..|b| - 1];
      InventoryConcat(dirPath, a, b[..|b| - 1]);
    }
  }

  /**
    Every record comes from an immediate child that is a file or a directory, and every such child
    yields a record: nothing is recorded for deeper descendants or for other kinds of entry.
  */
  lemma {:induction false} InventoryMembers(dirPath: string, entries: seq<Node>)
    ensures forall it :: it in Inventory(dirPath, entries) <==>
      exists c :: c in entries && Listed(c) && it == ItemOf(dirPath, c)
    decreases |entries|
  {
    if entries != [] {
      var front := entries[..|entries| - 1];
      InventoryMembers(dirPath, front);
      assert entries == front + [entries[|entries| - 1]];
    }
  }

  /** The positions of `entries` that hold a file or a directory. */
  function ListedPositions(entries: seq<Node>): set<nat> {
    set k: nat | k < |entries| && Listed(entries[k])
  }

  /** Exactly one record per file or directory child: as many records as such positions in the scan. */
  lemma {:induction false} InventoryCount(dirPath: string, entries: seq<Node>)
    ensures |Inventory(dirPath, entries)| == |ListedPositions(entries)|
    decreases |entries|
  {
    if entries == [] {
      assert ListedPositions(entries) == {};
    } else {
      var n := |entries| - 1;
      var front := entries[..n];
      InventoryCount(dirPath, front);
      var grown := if Listed(entries[n]) then ListedPositions(front) + {n} else ListedPositions(front);
      assert ListedPositions(entries) == grown;
      assert n !in ListedPositions(front);
    }
  }
}
