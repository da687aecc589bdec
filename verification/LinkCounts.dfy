/** Directories and link counts: create, link and unlink (sysfile.c) over dirlookup, dirlink, ialloc
    and iput (fs.c).  Directory contents are sequences of entries; each call is made while the inodes
    it changes are locked, and link, which drops the lock half-way, is two calls. */
module LinkCounts {

  const ROOT := 1

  datatype Kind = Free | Dir | File

  /** A directory entry; inum 0 marks an empty slot. */
  datatype Dirent = Dirent(inum: nat, name: string)

  datatype Inode = Inode(kind: Kind, nlink: int, ents: seq<Dirent>)

  const NONE := Dirent(0, "")

  /** A directory that is linked into the tree. */
  predicate Live(ip: Inode) {
    ip.kind == Dir && ip.nlink > 0
  }

  // ---- Counting ----

  /** An entry that counts as a link to inode i. */
  function Hit(de: Dirent, i: nat): nat {
    if de.inum == i && de.name != "." then 1 else 0
  }

  function Hits(ents: seq<Dirent>, i: nat): nat {
    if ents == [] then 0 else Hits(ents[..|ents| - 1], i) + Hit(ents[|ents| - 1], i)
  }

  /** The links that inode ip holds to inode i. */
  function Held(ip: Inode, i: nat): nat {
    if Live(ip) then Hits(ip.ents, i) else 0
  }

  /** The number of entries, other than ".", that name i from live directories. */
  function Links(inodes: seq<Inode>, i: nat): nat {
    if inodes == [] then 0 else Links(inodes[..|inodes| - 1], i) + Held(inodes[|inodes| - 1], i)
  }

  lemma {:induction false} HitsAppend(ents: seq<Dirent>, de: Dirent, i: nat)
    ensures Hits(ents + [de], i) == Hits(ents, i) + Hit(de, i)
  {
    assert (ents + [de])[..|ents|] == ents;
  }

  lemma {:induction false} HitsSet(ents: seq<Dirent>, k: nat, de: Dirent, i: nat)
    requires k < |ents|
    ensures Hits(ents[k := de], i) == Hits(ents, i) - Hit(ents[k], i) + Hit(de, i)
    decreases |ents|
  {
    var n := |ents| - 1;
    if k == n {
      assert ents[k := de][..n] == ents[..n];
    } else {
      HitsSet(ents[..n], k, de, i);
      assert ents[k := de][..n] == ents[..n][k := de];
    }
  }

  lemma {:induction false} HitsAt(ents: seq<Dirent>, k: nat, i: nat)
    requires k < |ents|
    ensures Hits(ents, i) >= Hit(ents[k], i)
    decreases |ents|
  {
    if k < |ents| - 1 {
      HitsAt(ents[..|ents| - 1], k, i);
    }
  }

  lemma {:induction false} HitsNone(ents: seq<Dirent>, i: nat)
    requires forall k :: 0 <= k < |ents| ==> Hit(ents[k], i) == 0
    ensures Hits(ents, i) == 0
    decreases |ents|
  {
    if ents != [] {
      HitsNone(ents[..|ents| - 1], i);
    }
  }

  lemma {:induction false} LinksSet(inodes: seq<Inode>, d: nat, ip: Inode, i: nat)
    requires d < |inodes|
    ensures Links(inodes[d := ip], i) == Links(inodes, i) - Held(inodes[d], i) + Held(ip, i)
    decreases |inodes|
  {
    var n := |inodes| - 1;
    if d == n {
      assert inodes[d := ip][..n] == inodes[..n];
    } else {
      LinksSet(inodes[..n], d, ip, i);
      assert inodes[d := ip][..n] == inodes[..n][d := ip];
    }
  }

  lemma {:induction false} LinksAt(inodes: seq<Inode>, d: nat, i: nat)
    requires d < |inodes|
    ensures Links(inodes, i) >= Held(inodes[d], i)
    decreases |inodes|
  {
    if d < |inodes| - 1 {
      LinksAt(inodes[..|inodes| - 1], d, i);
    }
  }

  lemma {:induction false} LinksNone(inodes: seq<Inode>, i: nat)
    requires forall d :: 0 <= d < |inodes| ==> Held(inodes[d], i) == 0
    ensures Links(inodes, i) == 0
    decreases |inodes|
  {
    if inodes != [] {
      LinksNone(inodes[..|inodes| - 1], i);
    }
  }

  // ---- The invariant ----

  /** The shape of a directory's contents: "." and ".." first, then entries with other names, no two
      alike. */
  predicate DirOk(ip: Inode, d: nat, n: nat) {
    && |ip.ents| >= 2
    && ip.ents[0] == Dirent(d, ".") && ip.ents[1].name == ".." && 0 < ip.ents[1].inum < n
    && (forall k :: 2 <= k < |ip.ents| && ip.ents[k].inum != 0 ==>
          ip.ents[k].name != "." && ip.ents[k].name != ".." && ip.ents[k].inum < n)
    && (forall j, k :: 2 <= j < k < |ip.ents| && ip.ents[j].inum != 0 && ip.ents[k].inum != 0 ==>
          ip.ents[j].name != ip.ents[k].name)
  }

  /** ip holds nothing but "." and "..". */
  predicate Empty(ip: Inode) {
    forall k :: 2 <= k < |ip.ents| ==> ip.ents[k].inum == 0
  }

  predicate InodeOk(ip: Inode, d: nat, n: nat) {
    match ip.kind
    case Free => ip.nlink == 0 && ip.ents == []
    case File => ip.ents == []
    case Dir => DirOk(ip, d, n) && (ip.nlink == 0 ==> Empty(ip))
  }

  /** A named entry of a live directory that leads to a directory: the latter's ".." leads back. */
  predicate EntryOk(inodes: seq<Inode>, p: nat, k: nat)
    requires p < |inodes| && 2 <= k < |inodes[p].ents|
  {
    var c := inodes[p].ents[k].inum;
    c != 0 && c < |inodes| && inodes[c].kind == Dir && Live(inodes[p]) ==>
      && c != ROOT && c != p && |inodes[c].ents| >= 2 && inodes[c].ents[1].inum == p
      && (forall j :: 2 <= j < |inodes[p].ents| && inodes[p].ents[j].inum == c ==> j == k)
  }

  /** A live directory's ".." leads to a live directory that has an entry for it. */
  predicate ParentOk(inodes: seq<Inode>, d: nat)
    requires d < |inodes|
  {
    Live(inodes[d]) && |inodes[d].ents| >= 2 ==>
      var p := inodes[d].ents[1].inum;
      p < |inodes| && if d == ROOT then p == ROOT else
        Live(inodes[p]) && exists k :: 2 <= k < |inodes[p].ents| && inodes[p].ents[k].inum == d
  }

  ghost predicate TreeOk(inodes: seq<Inode>) {
    && ROOT < |inodes| && Live(inodes[ROOT]) && inodes[0].kind == Free
    && (forall d :: 0 <= d < |inodes| ==> InodeOk(inodes[d], d, |inodes|))
    && (forall p, k {:trigger EntryOk(inodes, p, k)} :: 0 <= p < |inodes| && 2 <= k < |inodes[p].ents| ==>
          EntryOk(inodes, p, k))
    && (forall d {:trigger ParentOk(inodes, d)} :: 0 <= d < |inodes| ==> ParentOk(inodes, d))
  }

  /** Every inode's link count is the number of entries that name it from live directories, plus the
      links in progress. */
  ghost predicate CountsOk(inodes: seq<Inode>, pending: seq<nat>) {
    && |pending| == |inodes|
    && (forall i :: 0 < i < |inodes| ==> inodes[i].nlink == Links(inodes, i) + pending[i])
    && (forall i :: 0 <= i < |inodes| && pending[i] > 0 ==> inodes[i].kind == File)
  }

  /** An inode named by a live directory is in use and counted. */
  lemma NamedCounts(inodes: seq<Inode>, pending: seq<nat>, p: nat, k: nat)
    requires TreeOk(inodes) && CountsOk(inodes, pending) && p < |inodes| && Live(inodes[p]) && k < |inodes[p].ents|
    requires inodes[p].ents[k].inum != 0 && inodes[p].ents[k].name != "." && inodes[p].ents[k].inum < |inodes|
    ensures inodes[inodes[p].ents[k].inum].nlink >= 1 && inodes[inodes[p].ents[k].inum].kind != Free
  {
    var i := inodes[p].ents[k].inum;
    HitsAt(inodes[p].ents, k, i);
    LinksAt(inodes, p, i);
    assert InodeOk(inodes[i], i, |inodes|);
  }

  /** An empty directory other than the root is named once, and by nothing else. */
  lemma NamedOnce(inodes: seq<Inode>, p: nat, k: nat, c: nat, d: nat)
    requires TreeOk(inodes) && p < |inodes| && Live(inodes[p]) && 2 <= k < |inodes[p].ents|
    requires c == inodes[p].ents[k].inum
    requires 0 < c < |inodes| && inodes[c].kind == Dir && Empty(inodes[c]) && d < |inodes|
    ensures c != p && c != ROOT && inodes[c].ents[1].inum == p
    ensures Held(inodes[p := inodes[p].(ents := inodes[p].ents[k := NONE])][d], c) == 0
  {
    assert EntryOk(inodes, p, k) && InodeOk(inodes[d], d, |inodes|) && InodeOk(inodes[c], c, |inodes|) &&
          InodeOk(inodes[p], p, |inodes|);
    assert ParentOk(inodes, c) && ParentOk(inodes, d);
    var ip := inodes[p := inodes[p].(ents := inodes[p].ents[k := NONE])][d];
    if Live(ip) {
      forall j | 0 <= j < |ip.ents| ensures Hit(ip.ents[j], c) == 0 {
        if j >= 2 {
          assert EntryOk(inodes, d, j);
        }
      }
      HitsNone(ip.ents, c);
    }
  }

  // ---- dirlookup and dirlink on the entries ----

  /** The slot of the entry called name, or the number of slots. */
  function Lookup(ents: seq<Dirent>, name: string, from: nat): (k: nat)
    requires from <= |ents|
    ensures from <= k <= |ents|
    ensures forall j :: from <= j < k ==> ents[j].inum == 0 || ents[j].name != name
    ensures k < |ents| ==> ents[k].inum != 0 && ents[k].name == name
    decreases |ents| - from
  {
    if from == |ents| || (ents[from].inum != 0 && ents[from].name == name) then from else Lookup(ents, name, from + 1)
  }

  function FirstEmpty(ents: seq<Dirent>, from: nat): (k: nat)
    requires from <= |ents|
    ensures from <= k <= |ents|
    ensures forall j :: from <= j < k ==> ents[j].inum != 0
    ensures k < |ents| ==> ents[k].inum == 0
    decreases |ents| - from
  {
    if from == |ents| || ents[from].inum == 0 then from else FirstEmpty(ents, from + 1)
  }

  /** The entries after dirlink has put de into the first empty slot, or at the end. */
  function Added(ents: seq<Dirent>, de: Dirent): (r: seq<Dirent>)
  {
    var k := FirstEmpty(ents, 0);
    if k < |ents| then ents[k := de] else ents + [de]
  }

  lemma AddedHits(ents: seq<Dirent>, de: Dirent, i: nat)
    requires i != 0
    ensures Hits(Added(ents, de), i) == Hits(ents, i) + Hit(de, i)
  {
    var k := FirstEmpty(ents, 0);
    if k < |ents| {
      HitsSet(ents, k, de, i);
    } else {
      HitsAppend(ents, de, i);
    }
  }

  /** Every slot of the new entries is an old one, but for the new entry. */
  lemma AddedAt(ents: seq<Dirent>, de: Dirent, d: nat)
    requires |ents| >= 2 && ents[0].inum != 0 && ents[1].inum != 0
    ensures var k := FirstEmpty(ents, 0); var r := Added(ents, de);
            && 2 <= k < |r| && |r| >= |ents| && r[k] == de
            && (forall j :: 0 <= j < |r| && j != k ==> j < |ents| && r[j] == ents[j])
            && (k < |ents| ==> ents[k].inum == 0)
  {
  }

  lemma AddedDirOk(ip: Inode, d: nat, n: nat, de: Dirent)
    requires DirOk(ip, d, n) && 0 < d && 0 < de.inum < n && Lookup(ip.ents, de.name, 0) == |ip.ents|
    ensures forall nlink :: DirOk(Inode(Dir, nlink, Added(ip.ents, de)), d, n)
  {
    AddedAt(ip.ents, de, d);
  }

  // ---- create ----

  /** The inodes after create has made inode i of the given kind and entered it in directory d. */
  function Created(inodes: seq<Inode>, d: nat, i: nat, name: string, kind: Kind): seq<Inode>
    requires d < |inodes| && i < |inodes|
  {
    var node := Inode(kind, 1, if kind == Dir then [Dirent(i, "."), Dirent(d, "..")] else []);
    var dp := inodes[d];
    var links := if kind == Dir then dp.nlink + 1 else dp.nlink;
    inodes[i := node][d := Inode(dp.kind, links, Added(dp.ents, Dirent(i, name)))]
  }

  /** The links to j that the new inode and the changed directory hold. */
  lemma CreatedLinks(inodes: seq<Inode>, d: nat, i: nat, name: string, kind: Kind, j: nat)
    requires TreeOk(inodes) && d < |inodes| && Live(inodes[d]) && 0 < i < |inodes| && inodes[i].kind == Free
    requires kind != Free
    requires name != "." && 0 < j
    ensures Links(Created(inodes, d, i, name, kind), j) ==
              Links(inodes, j) + (if j == i then 1 else 0) + (if kind == Dir && j == d then 1 else 0)
  {
    var s := Created(inodes, d, i, name, kind);
    var node := s[i];
    LinksSet(inodes, i, node, j);
    LinksSet(inodes[i := node], d, s[d], j);
    AddedHits(inodes[d].ents, Dirent(i, name), j);
    if kind == Dir {
      HitsAppend([Dirent(i, ".")], Dirent(d, ".."), j);
      HitsAppend([], Dirent(i, "."), j);
      assert node.ents == [Dirent(i, ".")] + [Dirent(d, "..")] && [] + [Dirent(i, ".")] == [Dirent(i, ".")];
    }
  }

  lemma CreatedCounts(inodes: seq<Inode>, pending: seq<nat>, d: nat, i: nat, name: string, kind: Kind)
    requires TreeOk(inodes) && CountsOk(inodes, pending) && d < |inodes| && Live(inodes[d])
    requires 0 < i < |inodes| && inodes[i].kind == Free && kind != Free && name != "."
    ensures CountsOk(Created(inodes, d, i, name, kind), pending)
  {
    var s := Created(inodes, d, i, name, kind);
    assert InodeOk(inodes[i], i, |inodes|);
    forall j | 0 < j < |s| ensures s[j].nlink == Links(s, j) + pending[j] {
      CreatedLinks(inodes, d, i, name, kind, j);
    }
  }

  lemma CreatedTree(inodes: seq<Inode>, pending: seq<nat>, d: nat, i: nat, name: string, kind: Kind)
    requires TreeOk(inodes) && CountsOk(inodes, pending) && d < |inodes| && Live(inodes[d])
    requires 0 < i < |inodes| && inodes[i].kind == Free && kind != Free
    requires Lookup(inodes[d].ents, name, 0) == |inodes[d].ents|
    ensures TreeOk(Created(inodes, d, i, name, kind))
  {
    var s, n := Created(inodes, d, i, name, kind), |inodes|;
    assert InodeOk(inodes[d], d, n) && InodeOk(inodes[i], i, n);
    AddedAt(inodes[d].ents, Dirent(i, name), d);
    AddedDirOk(inodes[d], d, n, Dirent(i, name));
    forall e | 0 <= e < n ensures InodeOk(s[e], e, n) {
      assert InodeOk(inodes[e], e, n);
    }
    forall p, k | 0 <= p < n && 2 <= k < |s[p].ents| ensures EntryOk(s, p, k) {
      CreatedEntry(inodes, pending, d, i, name, kind, p, k);
    }
    forall e | 0 <= e < n ensures ParentOk(s, e) {
      CreatedParent(inodes, d, i, name, kind, e);
    }
  }

  lemma CreatedEntry(inodes: seq<Inode>, pending: seq<nat>, d: nat, i: nat, name: string, kind: Kind, p: nat, k: nat)
    requires TreeOk(inodes) && CountsOk(inodes, pending) && d < |inodes| && Live(inodes[d])
    requires 0 < i < |inodes| && inodes[i].kind == Free && kind != Free
    requires Lookup(inodes[d].ents, name, 0) == |inodes[d].ents|
    requires p < |inodes| && 2 <= k < |Created(inodes, d, i, name, kind)[p].ents|
    ensures EntryOk(Created(inodes, d, i, name, kind), p, k)
  {
    var s := Created(inodes, d, i, name, kind);
    assert InodeOk(inodes[d], d, |inodes|) && InodeOk(inodes[p], p, |inodes|);
    AddedAt(inodes[d].ents, Dirent(i, name), d);
    if Live(s[p]) && p != i {
      forall j | 0 <= j < |inodes[p].ents| && inodes[p].ents[j].name != "." ensures inodes[p].ents[j].inum != i {
        if inodes[p].ents[j].inum == i {
          NamedCounts(inodes, pending, p, j);
        }
      }
      if k < |inodes[p].ents| && s[p].ents[k] == inodes[p].ents[k] {
        assert EntryOk(inodes, p, k);
      }
    }
  }

  lemma CreatedParent(inodes: seq<Inode>, d: nat, i: nat, name: string, kind: Kind, e: nat)
    requires TreeOk(inodes) && d < |inodes| && Live(inodes[d])
    requires 0 < i < |inodes| && inodes[i].kind == Free && kind != Free
    requires Lookup(inodes[d].ents, name, 0) == |inodes[d].ents|
    requires e < |inodes|
    ensures ParentOk(Created(inodes, d, i, name, kind), e)
  {
    var s := Created(inodes, d, i, name, kind);
    assert InodeOk(inodes[d], d, |inodes|) && InodeOk(inodes[e], e, |inodes|) && ParentOk(inodes, e);
    AddedAt(inodes[d].ents, Dirent(i, name), d);
    if e == i {
      assert kind == Dir ==> s[d].ents[FirstEmpty(inodes[d].ents, 0)].inum == i;
    } else if Live(s[e]) && e != ROOT {
      var p := inodes[e].ents[1].inum;
      var k :| 2 <= k < |inodes[p].ents| && inodes[p].ents[k].inum == e;
      assert s[p].ents[k].inum == e;
    }
  }

  // ---- unlink ----

  /** The inodes after unlink has cleared slot k of directory d, which named inode c. */
  function Unlinked(inodes: seq<Inode>, d: nat, k: nat): seq<Inode>
    requires d < |inodes| && k < |inodes[d].ents| && inodes[d].ents[k].inum < |inodes|
  {
    var dp, c := inodes[d], inodes[d].ents[k].inum;
    var s := inodes[d := Inode(dp.kind, if inodes[c].kind == Dir then dp.nlink - 1 else dp.nlink, dp.ents[k := NONE])];
    s[c := s[c].(nlink := s[c].nlink - 1)]
  }

  /** Unlinking an empty directory brings its count to exactly 0. */
  lemma UnlinkedDirDead(inodes: seq<Inode>, pending: seq<nat>, d: nat, k: nat)
    requires TreeOk(inodes) && CountsOk(inodes, pending) && d < |inodes| && Live(inodes[d]) && 2 <= k < |inodes[d].ents|
    requires var c := inodes[d].ents[k].inum; 0 < c < |inodes| && inodes[c].kind == Dir && Empty(inodes[c])
    ensures inodes[inodes[d].ents[k].inum].nlink == 1
  {
    var c := inodes[d].ents[k].inum;
    var s := inodes[d := inodes[d].(ents := inodes[d].ents[k := NONE])];
    assert InodeOk(inodes[d], d, |inodes|);
    forall e | 0 <= e < |s| ensures Held(s[e], c) == 0 {
      NamedOnce(inodes, d, k, c, e);
    }
    LinksNone(s, c);
    LinksSet(inodes, d, s[d], c);
    HitsSet(inodes[d].ents, k, NONE, c);
  }

  lemma UnlinkedCounts(inodes: seq<Inode>, pending: seq<nat>, d: nat, k: nat, j: nat)
    requires TreeOk(inodes) && CountsOk(inodes, pending) && d < |inodes| && Live(inodes[d]) && 2 <= k < |inodes[d].ents|
    requires var c := inodes[d].ents[k].inum; 0 < c < |inodes| && (inodes[c].kind == Dir ==> Empty(inodes[c]))
    requires 0 < j < |inodes|
    ensures Unlinked(inodes, d, k)[j].nlink == Links(Unlinked(inodes, d, k), j) + pending[j]
  {
    var c := inodes[d].ents[k].inum;
    var s := Unlinked(inodes, d, k);
    assert InodeOk(inodes[d], d, |inodes|) && InodeOk(inodes[c], c, |inodes|);
    NamedCounts(inodes, pending, d, k);
    HitsSet(inodes[d].ents, k, NONE, j);
    if inodes[c].kind == Dir {
      NamedOnce(inodes, d, k, c, d);
      UnlinkedDirDead(inodes, pending, d, k);
      OnlyDots(inodes[c], c, |inodes|, j);
      DirStillLive(inodes, pending, d, c);
    } else {
      assert c != d;
    }
    var s1 := inodes[d := s[d]];
    LinksSet(inodes, d, s[d], j);
    LinksSet(s1, c, s[c], j);
  }

  /** An empty directory holds one link, to its parent. */
  lemma OnlyDots(ip: Inode, d: nat, n: nat, j: nat)
    requires DirOk(ip, d, n) && Empty(ip) && 0 < j
    ensures Hits(ip.ents, j) == if ip.ents[1].inum == j then 1 else 0
  {
    var e := ip.ents[1 := NONE];
    HitsSet(ip.ents, 1, NONE, j);
    forall k | 0 <= k < |e| ensures Hit(e[k], j) == 0 {
    }
    HitsNone(e, j);
  }

  /** A directory with a subdirectory keeps a link of its own when the subdirectory goes. */
  lemma DirStillLive(inodes: seq<Inode>, pending: seq<nat>, d: nat, c: nat)
    requires TreeOk(inodes) && CountsOk(inodes, pending) && d < |inodes| && Live(inodes[d]) && c < |inodes| && c != d
    requires Live(inodes[c]) && Empty(inodes[c]) && |inodes[c].ents| >= 2 && inodes[c].ents[1].inum == d && c != ROOT
    ensures inodes[d].nlink >= 2
  {
    assert InodeOk(inodes[d], d, |inodes|) && InodeOk(inodes[c], c, |inodes|) && ParentOk(inodes, d);
    var p := inodes[d].ents[1].inum;
    HitsAt(inodes[c].ents, 1, d);
    var s := inodes[c := inodes[c].(ents := [])];
    LinksSet(inodes, c, s[c], d);
    if d == ROOT {
      HitsAt(inodes[d].ents, 1, d);
      LinksAt(s, d, d);
    } else {
      var k :| 2 <= k < |inodes[p].ents| && inodes[p].ents[k].inum == d;
      assert InodeOk(inodes[p], p, |inodes|) && EntryOk(inodes, p, k);
      HitsAt(inodes[p].ents, k, d);
      LinksAt(s, p, d);
    }
  }

  lemma UnlinkedTree(inodes: seq<Inode>, pending: seq<nat>, d: nat, k: nat)
    requires TreeOk(inodes) && CountsOk(inodes, pending) && d < |inodes| && Live(inodes[d]) && 2 <= k < |inodes[d].ents|
    requires var c := inodes[d].ents[k].inum; 0 < c < |inodes| && (inodes[c].kind == Dir ==> Empty(inodes[c]))
    ensures TreeOk(Unlinked(inodes, d, k))
  {
    var c, s, n := inodes[d].ents[k].inum, Unlinked(inodes, d, k), |inodes|;
    assert InodeOk(inodes[d], d, n) && InodeOk(inodes[c], c, n);
    NamedCounts(inodes, pending, d, k);
    if inodes[c].kind == Dir {
      NamedOnce(inodes, d, k, c, d);
      UnlinkedDirDead(inodes, pending, d, k);
      DirStillLive(inodes, pending, d, c);
    }
    UnlinkedInodes(inodes, d, k);
    forall p, j | 0 <= p < n && 2 <= j < |s[p].ents| ensures EntryOk(s, p, j) {
      assert EntryOk(inodes, p, j);
    }
    forall e | 0 <= e < n ensures ParentOk(s, e) {
      UnlinkedParent(inodes, d, k, e);
    }
  }

  lemma UnlinkedInodes(inodes: seq<Inode>, d: nat, k: nat)
    requires TreeOk(inodes) && d < |inodes| && Live(inodes[d]) && 2 <= k < |inodes[d].ents|
    requires var c := inodes[d].ents[k].inum;
             0 < c < |inodes| && c != d && inodes[c].kind != Free &&
                 (inodes[c].kind == Dir ==> Empty(inodes[c]) && inodes[c].nlink == 1 && inodes[d].nlink >= 2)
    ensures forall e :: 0 <= e < |inodes| ==> InodeOk(Unlinked(inodes, d, k)[e], e, |inodes|)
  {
    forall e | 0 <= e < |inodes| ensures InodeOk(Unlinked(inodes, d, k)[e], e, |inodes|) {
      assert InodeOk(inodes[e], e, |inodes|);
    }
  }

  lemma UnlinkedParent(inodes: seq<Inode>, d: nat, k: nat, e: nat)
    requires TreeOk(inodes) && d < |inodes| && Live(inodes[d]) && 2 <= k < |inodes[d].ents| && e < |inodes|
    requires var c := inodes[d].ents[k].inum;
             && 0 < c < |inodes| && c != d
             && (inodes[c].kind == Dir ==> Empty(inodes[c]) && inodes[c].nlink == 1 && inodes[d].nlink >= 2)
    ensures ParentOk(Unlinked(inodes, d, k), e)
  {
    var c, s := inodes[d].ents[k].inum, Unlinked(inodes, d, k);
    assert ParentOk(inodes, e) && InodeOk(inodes[e], e, |inodes|) && EntryOk(inodes, d, k);
    if Live(s[e]) && e != ROOT {
      var p := inodes[e].ents[1].inum;
      var j :| 2 <= j < |inodes[p].ents| && inodes[p].ents[j].inum == e;
      assert s[p].ents[j].inum == e;
    }
  }

  // ---- link ----

  /** The inodes after dirlink has entered file i in directory d. */
  function Linked(inodes: seq<Inode>, d: nat, i: nat, name: string): seq<Inode>
    requires d < |inodes|
  {
    inodes[d := inodes[d].(ents := Added(inodes[d].ents, Dirent(i, name)))]
  }

  lemma LinkedCounts(inodes: seq<Inode>, pending: seq<nat>, d: nat, i: nat, name: string)
    requires CountsOk(inodes, pending) && d < |inodes| && Live(inodes[d]) && 0 < i < |inodes| && pending[i] > 0
    requires name != "."
    ensures CountsOk(Linked(inodes, d, i, name), pending[i := pending[i] - 1])
  {
    var s := Linked(inodes, d, i, name);
    forall j | 0 < j < |inodes| ensures s[j].nlink == Links(s, j) + pending[i := pending[i] - 1][j] {
      LinksSet(inodes, d, s[d], j);
      AddedHits(inodes[d].ents, Dirent(i, name), j);
    }
  }

  lemma LinkedTree(inodes: seq<Inode>, d: nat, i: nat, name: string)
    requires TreeOk(inodes) && d < |inodes| && Live(inodes[d])
    requires 0 < i < |inodes| && inodes[i].kind == File && Lookup(inodes[d].ents, name, 0) == |inodes[d].ents|
    ensures TreeOk(Linked(inodes, d, i, name))
  {
    var s, n := Linked(inodes, d, i, name), |inodes|;
    assert InodeOk(inodes[d], d, n);
    AddedDirOk(inodes[d], d, n, Dirent(i, name));
    AddedAt(inodes[d].ents, Dirent(i, name), d);
    forall e | 0 <= e < n ensures InodeOk(s[e], e, n) {
      assert InodeOk(inodes[e], e, n);
    }
    forall p, k | 0 <= p < n && 2 <= k < |s[p].ents| ensures EntryOk(s, p, k) {
      if k < |inodes[p].ents| {
        assert EntryOk(inodes, p, k);
      }
    }
    forall e | 0 <= e < n ensures ParentOk(s, e) {
      LinkedParent(inodes, d, i, name, e);
    }
  }

  lemma LinkedParent(inodes: seq<Inode>, d: nat, i: nat, name: string, e: nat)
    requires TreeOk(inodes) && d < |inodes| && Live(inodes[d]) && 0 < i && e < |inodes|
    ensures ParentOk(Linked(inodes, d, i, name), e)
  {
    var s := Linked(inodes, d, i, name);
    assert ParentOk(inodes, e) && InodeOk(inodes[e], e, |inodes|) && InodeOk(inodes[d], d, |inodes|);
    AddedAt(inodes[d].ents, Dirent(i, name), d);
    if Live(s[e]) && e != ROOT {
      var p := inodes[e].ents[1].inum;
      var k :| 2 <= k < |inodes[p].ents| && inodes[p].ents[k].inum == e;
      assert s[p].ents[k].inum == e;
    }
  }

  /** Changing a file's count by one, together with the links in progress. */
  lemma PendingOk(inodes: seq<Inode>, pending: seq<nat>, i: nat, up: int)
    requires TreeOk(inodes) && CountsOk(inodes, pending) && 0 < i < |inodes| && inodes[i].kind == File
    requires pending[i] + up >= 0
    ensures var s := inodes[i := inodes[i].(nlink := inodes[i].nlink + up)];
            TreeOk(s) && CountsOk(s, pending[i := pending[i] + up])
  {
    var s, n := inodes[i := inodes[i].(nlink := inodes[i].nlink + up)], |inodes|;
    forall j | 0 < j < n ensures s[j].nlink == Links(s, j) + pending[i := pending[i] + up][j] {
      LinksSet(inodes, i, s[i], j);
    }
    FileTreeOk(inodes, s, i);
  }

  lemma SameLength(inodes: seq<Inode>, pending: seq<nat>)
    requires CountsOk(inodes, pending)
    ensures |pending| == |inodes|
  {
  }

  /** The tree does not depend on a file's count. */
  lemma FileTreeOk(inodes: seq<Inode>, s: seq<Inode>, i: nat)
    requires TreeOk(inodes) && i < |inodes| == |s| && inodes[i].kind == File
    requires s == inodes[i := inodes[i].(nlink := s[i].nlink)]
    ensures TreeOk(s)
  {
    var n := |inodes|;
    forall e | 0 <= e < n ensures InodeOk(s[e], e, n) && ParentOk(s, e) {
      assert InodeOk(inodes[e], e, n) && ParentOk(inodes, e);
    }
    forall p, k | 0 <= p < n && 2 <= k < |s[p].ents| ensures EntryOk(s, p, k) {
      assert EntryOk(inodes, p, k);
    }
  }

  // ---- iput ----

  /** Freeing an inode without links. */
  lemma ReclaimedOk(inodes: seq<Inode>, pending: seq<nat>, i: nat)
    requires TreeOk(inodes) && CountsOk(inodes, pending) && 0 < i < |inodes| && inodes[i].nlink == 0
    ensures var s := inodes[i := Inode(Free, 0, [])]; TreeOk(s) && CountsOk(s, pending)
  {
    var s, n := inodes[i := Inode(Free, 0, [])], |inodes|;
    forall e | 0 <= e < n ensures InodeOk(s[e], e, n) && ParentOk(s, e) {
      assert InodeOk(inodes[e], e, n) && ParentOk(inodes, e);
      if Live(s[e]) && e != ROOT {
        var p := inodes[e].ents[1].inum;
        var k :| 2 <= k < |inodes[p].ents| && inodes[p].ents[k].inum == e;
        assert s[p].ents[k].inum == e;
      }
    }
    forall p, k | 0 <= p < n && 2 <= k < |s[p].ents| ensures EntryOk(s, p, k) {
      assert EntryOk(inodes, p, k);
      assert InodeOk(inodes[p], p, n);
      if Live(s[p]) && s[p].ents[k].inum == i {
        NamedCounts(inodes, pending, p, k);
      }
    }
    forall j | 0 < j < n ensures s[j].nlink == Links(s, j) + pending[j] {
      LinksSet(inodes, i, s[i], j);
    }
  }

  // ---- Dead directories ----

  /** A create in a directory that has been unlinked always breaks the count of some inode. */
  lemma DeadCreateMiscounts(inodes: seq<Inode>, pending: seq<nat>, d: nat, i: nat, name: string, kind: Kind)
    requires TreeOk(inodes) && CountsOk(inodes, pending) && d < |inodes| && inodes[d].kind == Dir
    requires inodes[d].nlink == 0
    requires 0 < i < |inodes| && inodes[i].kind == Free && kind != Free && name != "."
    ensures !CountsOk(Created(inodes, d, i, name, kind), pending)
  {
    assert InodeOk(inodes[d], d, |inodes|) && InodeOk(inodes[i], i, |inodes|);
    var j := if kind == File then i else inodes[d].ents[1].inum;
    DeadCreateLinks(inodes, d, i, name, kind, j);
    assert inodes[j].nlink == Links(inodes, j) + pending[j];
    assert Created(inodes, d, i, name, kind)[j].nlink != Links(Created(inodes, d, i, name, kind), j) + pending[j];
  }

  /** A new file there is counted by nobody; a new directory revives the dead one's "..". */
  lemma DeadCreateLinks(inodes: seq<Inode>, d: nat, i: nat, name: string, kind: Kind, j: nat)
    requires d < |inodes| && inodes[d].kind == Dir && inodes[d].nlink == 0 && DirOk(inodes[d], d, |inodes|)
    requires Empty(inodes[d])
    requires 0 < i < |inodes| && inodes[i].kind == Free && kind != Free && name != "." && 0 < j < |inodes|
    requires j == if kind == File then i else inodes[d].ents[1].inum
    ensures Links(Created(inodes, d, i, name, kind), j) ==
              Links(inodes, j) + if kind == File then 0 else 1 + (if j == d then 1 else 0) + (if j == i then 1 else 0)
  {
    var s := Created(inodes, d, i, name, kind);
    LinksSet(inodes, i, s[i], j);
    LinksSet(inodes[i := s[i]], d, s[d], j);
    if kind == Dir {
      AddedHits(inodes[d].ents, Dirent(i, name), j);
      OnlyDots(inodes[d], d, |inodes|, j);
      HitsAppend([Dirent(i, ".")], Dirent(d, ".."), j);
      HitsAppend([], Dirent(i, "."), j);
      assert s[i].ents == [Dirent(i, ".")] + [Dirent(d, "..")] && [] + [Dirent(i, ".")] == [Dirent(i, ".")];
    }
  }

  /** The two dirlink calls that fill a new directory. */
  lemma DotsAdded(i: nat, d: nat)
    requires 0 < i
    ensures Lookup([], ".", 0) == 0 && Added([], Dirent(i, ".")) == [Dirent(i, ".")]
    ensures Lookup([Dirent(i, ".")], "..", 0) == 1
    ensures Added([Dirent(i, ".")], Dirent(d, "..")) == [Dirent(i, "."), Dirent(d, "..")]
  {
  }

  // ---- What the system calls keep ----

  /** create keeps the tree and the counts exactly when the directory is still linked. */
  lemma CreateOk(inodes: seq<Inode>, pending: seq<nat>, d: nat, i: nat, name: string, kind: Kind)
    requires TreeOk(inodes) && CountsOk(inodes, pending) && d < |inodes| && inodes[d].kind == Dir
    requires 0 < i < |inodes| && inodes[i].kind == Free && kind != Free
    requires Lookup(inodes[d].ents, name, 0) == |inodes[d].ents|
    ensures TreeOk(Created(inodes, d, i, name, kind)) && CountsOk(Created(inodes, d, i, name, kind), pending) <==>
          Live(inodes[d])
  {
    assert InodeOk(inodes[d], d, |inodes|);
    assert name != "." by {
      assert inodes[d].ents[0].name == ".";
    }
    if Live(inodes[d]) {
      CreatedTree(inodes, pending, d, i, name, kind);
      CreatedCounts(inodes, pending, d, i, name, kind);
    } else {
      assert inodes[d].nlink == 0 by {
        assert inodes[d].nlink == Links(inodes, d) + pending[d];
      }
      DeadCreateMiscounts(inodes, pending, d, i, name, kind);
    }
  }

  /** unlink keeps both, whatever is unlinked; a directory ends with count 0. */
  lemma UnlinkOk(inodes: seq<Inode>, pending: seq<nat>, d: nat, k: nat, c: nat)
    requires TreeOk(inodes) && CountsOk(inodes, pending) && d < |inodes| && inodes[d].kind == Dir
    requires 2 <= k < |inodes[d].ents| && c == inodes[d].ents[k].inum && c != 0
    ensures c < |inodes| && c != d && Live(inodes[d])
    ensures (inodes[c].kind == Dir ==> Empty(inodes[c])) ==>
          TreeOk(Unlinked(inodes, d, k)) && CountsOk(Unlinked(inodes, d, k), pending)
    ensures inodes[c].kind == Dir && Empty(inodes[c]) ==> inodes[c].nlink == 1
  {
    assert InodeOk(inodes[d], d, |inodes|);
    assert Live(inodes[d]) by {
      assert inodes[d].nlink == Links(inodes, d) + pending[d];
    }
    NamedCounts(inodes, pending, d, k);
    assert EntryOk(inodes, d, k);
    if inodes[c].kind == Dir ==> Empty(inodes[c]) {
      if inodes[c].kind == Dir {
        UnlinkedDirDead(inodes, pending, d, k);
      }
      UnlinkedTree(inodes, pending, d, k);
      forall j | 0 < j < |inodes|
        ensures Unlinked(inodes, d, k)[j].nlink == Links(Unlinked(inodes, d, k), j) + pending[j]
      {
        UnlinkedCounts(inodes, pending, d, k, j);
      }
    }
  }

  /** A link entered in a directory that has been unlinked leaves the file's count one too high. */
  lemma DeadLinkMiscounts(inodes: seq<Inode>, pending: seq<nat>, i: nat, d: nat, name: string)
    requires CountsOk(inodes, pending) && 0 < i < |inodes| && pending[i] > 0 && d < |inodes| && !Live(inodes[d])
    requires i != d
    ensures !CountsOk(Linked(inodes, d, i, name), pending[i := pending[i] - 1])
  {
    var s, p := Linked(inodes, d, i, name), pending[i := pending[i] - 1];
    LinksSet(inodes, d, s[d], i);
    assert s[i].nlink == Links(s, i) + p[i] + 1;
  }

  /** Taking the count back keeps both; entering the link keeps both exactly when the directory is
      still linked. */
  lemma LinkEndOk(inodes: seq<Inode>, pending: seq<nat>, i: nat, d: nat, name: string)
    requires TreeOk(inodes) && CountsOk(inodes, pending) && 0 < i < |inodes| && pending[i] > 0
    requires d < |inodes| && inodes[d].kind == Dir
    ensures var p := pending[i := pending[i] - 1];
            if Lookup(inodes[d].ents, name, 0) == |inodes[d].ents|
            then TreeOk(Linked(inodes, d, i, name)) && CountsOk(Linked(inodes, d, i, name), p) <==> Live(inodes[d])
            else var s := inodes[i := inodes[i].(nlink := inodes[i].nlink - 1)]; TreeOk(s) && CountsOk(s, p)
  {
    assert InodeOk(inodes[d], d, |inodes|);
    if Lookup(inodes[d].ents, name, 0) == |inodes[d].ents| {
      assert name != "." by {
        assert inodes[d].ents[0].name == ".";
      }
      if Live(inodes[d]) {
        LinkedTree(inodes, d, i, name);
        LinkedCounts(inodes, pending, d, i, name);
      } else {
        DeadLinkMiscounts(inodes, pending, i, d, name);
      }
    } else {
      PendingOk(inodes, pending, i, -1);
    }
  }

  // ---- What the calls do to the names ----

  /** The directory has an entry of that name for inode i. */
  ghost predicate Names(ents: seq<Dirent>, name: string, i: nat) {
    i != 0 && Dirent(i, name) in ents
  }

  /** The names in ents' are those in ents and, for inode i, `name`. */
  ghost predicate NameAdded(ents: seq<Dirent>, ents': seq<Dirent>, name: string, i: nat) {
    forall nm, j :: Names(ents', nm, j) <==> Names(ents, nm, j) || (nm == name && j == i && i != 0)
  }

  /** The names in ents' are those in ents other than `name`. */
  ghost predicate NameRemoved(ents: seq<Dirent>, ents': seq<Dirent>, name: string) {
    forall nm, j :: Names(ents', nm, j) <==> Names(ents, nm, j) && nm != name
  }

  lemma AddedNames(ents: seq<Dirent>, i: nat, name: string)
    ensures NameAdded(ents, Added(ents, Dirent(i, name)), name, i)
  {
    var k, ents' := FirstEmpty(ents, 0), Added(ents, Dirent(i, name));
    forall nm, j ensures Names(ents', nm, j) <==> Names(ents, nm, j) || (nm == name && j == i && i != 0) {
      if Names(ents, nm, j) {
        var m :| 0 <= m < |ents| && ents[m] == Dirent(j, nm);
        assert ents'[m] == ents[m];
      }
      if nm == name && j == i {
        assert ents'[k] == Dirent(j, nm);
      }
      if Names(ents', nm, j) {
        var m :| 0 <= m < |ents'| && ents'[m] == Dirent(j, nm);
        assert m != k ==> ents[m] == Dirent(j, nm);
      }
    }
  }

  lemma ClearedNames(ip: Inode, d: nat, n: nat, k: nat)
    requires DirOk(ip, d, n) && 2 <= k < |ip.ents| && ip.ents[k].inum != 0
    ensures NameRemoved(ip.ents, ip.ents[k := NONE], ip.ents[k].name)
  {
    var ents, ents' := ip.ents, ip.ents[k := NONE];
    forall nm, j ensures Names(ents', nm, j) <==> Names(ents, nm, j) && nm != ents[k].name {
      if Names(ents', nm, j) {
        var m :| 0 <= m < |ents'| && ents'[m] == Dirent(j, nm);
        assert m != k && ents[m] == Dirent(j, nm);
        assert m < 2 ==> nm == "." || nm == "..";
        assert m >= 2 ==> ents[m].name != ents[k].name by {
          if m < k {
            assert ents[m].inum != 0 && ents[k].inum != 0;
          } else {
            assert ents[k].inum != 0 && ents[m].inum != 0;
          }
        }
      }
      if Names(ents, nm, j) && nm != ents[k].name {
        var m :| 0 <= m < |ents| && ents[m] == Dirent(j, nm);
        assert ents'[m] == Dirent(j, nm);
      }
    }
  }

  /** Nothing but inodes d and i has changed, and of d only its count and its entries. */
  ghost predicate OnlyTwo(s: seq<Inode>, s': seq<Inode>, d: nat, i: nat)
    requires d < |s| && i < |s|
  {
    && |s'| == |s| && s'[d].kind == s[d].kind
    && forall j :: 0 <= j < |s| && j != d && j != i ==> s'[j] == s[j]
  }

  /** The new inode, by its names: a file has none, a directory itself and its parent. */
  ghost predicate NewInode(ip: Inode, kind: Kind, d: nat, i: nat) {
    && ip.kind == kind && ip.nlink == 1
    && forall nm, j :: Names(ip.ents, nm, j) <==>
         kind == Dir && j != 0 && ((nm == "." && j == i) || (nm == ".." && j == d))
  }

  lemma CreatedNames(inodes: seq<Inode>, d: nat, i: nat, name: string, kind: Kind)
    requires d < |inodes| && i < |inodes| && d != i && kind != Free
    ensures var s := Created(inodes, d, i, name, kind);
            && OnlyTwo(inodes, s, d, i) && NewInode(s[i], kind, d, i)
            && s[d].nlink == inodes[d].nlink + (if kind == Dir then 1 else 0)
            && NameAdded(inodes[d].ents, s[d].ents, name, i)
  {
    AddedNames(inodes[d].ents, i, name);
    var node := Created(inodes, d, i, name, kind)[i];
    forall nm, j ensures Names(node.ents, nm, j) <==>
                           kind == Dir && j != 0 && ((nm == "." && j == i) || (nm == ".." && j == d))
    {
      assert kind == Dir ==> node.ents[0] == Dirent(i, ".") && node.ents[1] == Dirent(d, "..");
    }
  }

  lemma UnlinkedNames(inodes: seq<Inode>, d: nat, k: nat)
    requires d < |inodes| && DirOk(inodes[d], d, |inodes|) && 2 <= k < |inodes[d].ents| && inodes[d].ents[k].inum != 0
    requires inodes[d].ents[k].inum < |inodes| && inodes[d].ents[k].inum != d
    ensures var c, s := inodes[d].ents[k].inum, Unlinked(inodes, d, k);
            && OnlyTwo(inodes, s, d, c) && s[c] == inodes[c].(nlink := inodes[c].nlink - 1)
            && s[d].nlink == inodes[d].nlink - (if inodes[c].kind == Dir then 1 else 0)
            && NameRemoved(inodes[d].ents, s[d].ents, inodes[d].ents[k].name)
  {
    ClearedNames(inodes[d], d, |inodes|, k);
  }

  // ---- The system calls ----

  datatype CreateResult = Made(i: nat) | Existing(i: nat) | Refused | NoInode

  /** `name` in directory d, which led to inode c, is gone, and counted as gone. */
  ghost predicate Removed(s: seq<Inode>, s': seq<Inode>, d: nat, name: string, c: nat)
    requires d < |s| && c < |s|
  {
    && Names(s[d].ents, name, c) && c != d && OnlyTwo(s, s', d, c) && s'[c] == s[c].(nlink := s[c].nlink - 1)
    && s'[d].nlink == s[d].nlink - (if s[c].kind == Dir then 1 else 0)
    && NameRemoved(s[d].ents, s'[d].ents, name)
  }

  class FileTree {
    var inodes: seq<Inode>
    ghost var pending: seq<nat>

    ghost predicate Valid()
      reads this
    {
      TreeOk(inodes) && CountsOk(inodes, pending)
    }

    /** The tree mkfs makes: n inodes, of which only the root is in use. */
    constructor (n: nat)
      requires n > ROOT
      ensures Valid() && |inodes| == n && inodes[ROOT] == Inode(Dir, 1, [Dirent(ROOT, "."), Dirent(ROOT, "..")])
      ensures forall i :: 0 <= i < n && i != ROOT ==> inodes[i] == Inode(Free, 0, [])
    {
      var root := Inode(Dir, 1, [Dirent(ROOT, "."), Dirent(ROOT, "..")]);
      var blank := seq(n, i => Inode(Free, 0, []));
      inodes := blank[ROOT := root];
      pending := seq(n, i => 0);
      new;
      assert root.ents == [Dirent(ROOT, ".")] + [Dirent(ROOT, "..")];
      forall i | 0 < i < n ensures inodes[i].nlink == Links(inodes, i) + pending[i] {
        LinksNone(blank, i);
        LinksSet(blank, ROOT, root, i);
        HitsAppend([Dirent(ROOT, ".")], Dirent(ROOT, ".."), i);
        HitsAppend([], Dirent(ROOT, "."), i);
        assert [] + [Dirent(ROOT, ".")] == [Dirent(ROOT, ".")];
      }
      forall d | 0 <= d < n ensures InodeOk(inodes[d], d, n) && ParentOk(inodes, d) {
      }
    }

    method Dirlookup(d: nat, name: string) returns (k: nat)
      requires d < |inodes|
      ensures k == Lookup(inodes[d].ents, name, 0)
      ensures k <= |inodes[d].ents| && (k < |inodes[d].ents| ==> Names(inodes[d].ents, name, inodes[d].ents[k].inum))
      ensures k == |inodes[d].ents| ==> forall i :: !Names(inodes[d].ents, name, i)
    {
      k := 0;
      while k < |inodes[d].ents|
        invariant 0 <= k <= |inodes[d].ents| && Lookup(inodes[d].ents, name, 0) == Lookup(inodes[d].ents, name, k)
      {
        if inodes[d].ents[k].inum != 0 && inodes[d].ents[k].name == name {
          return;
        }
        k := k + 1;
      }
    }

    method Dirlink(d: nat, name: string, i: nat) returns (ok: bool)
      requires d < |inodes|
      modifies this`inodes
      ensures ok <==> Lookup(old(inodes)[d].ents, name, 0) == |old(inodes)[d].ents|
      ensures inodes == if ok then Linked(old(inodes), d, i, name) else old(inodes)
      ensures ok ==> |inodes| == |old(inodes)| && inodes == old(inodes)[d := old(inodes)[d].(ents := inodes[d].ents)]
                     && NameAdded(old(inodes)[d].ents, inodes[d].ents, name, i)
    {
      AddedNames(inodes[d].ents, i, name);
      var j := Dirlookup(d, name);
      if j < |inodes[d].ents| {
        return false;
      }
      var k := 0;
      while k < |inodes[d].ents|
        invariant 0 <= k <= |inodes[d].ents| && inodes == old(inodes)
        invariant FirstEmpty(inodes[d].ents, 0) == FirstEmpty(inodes[d].ents, k)
      {
        if inodes[d].ents[k].inum == 0 {
          break;
        }
        k := k + 1;
      }
      var ents := inodes[d].ents;
      var de := Dirent(i, name);
      inodes := inodes[d := inodes[d].(ents := if k < |ents| then ents[k := de] else ents + [de])];
      return true;
    }

    method IsDirEmpty(d: nat) returns (e: bool)
      requires d < |inodes|
      ensures e == Empty(inodes[d])
    {
      var k := 2;
      while k < |inodes[d].ents|
        invariant 2 <= k && forall j :: 2 <= j < k && j < |inodes[d].ents| ==> inodes[d].ents[j].inum == 0
      {
        if inodes[d].ents[k].inum != 0 {
          return false;
        }
        k := k + 1;
      }
      return true;
    }

    /** ialloc: the first free inode, or none (a panic in the source). */
    method Ialloc() returns (i: nat)
      requires |inodes| > 1
      ensures 1 <= i <= |inodes| && (i < |inodes| ==> inodes[i].kind == Free)
      ensures forall j :: 1 <= j < i ==> inodes[j].kind != Free
    {
      i := 1;
      while i < |inodes|
        invariant 1 <= i <= |inodes|
        invariant forall j :: 1 <= j < i ==> inodes[j].kind != Free
      {
        if inodes[i].kind == Free {
          return;
        }
        i := i + 1;
      }
    }

    /** create, in directory d.  Counts stay right exactly when d is still linked. */
    method Create(d: nat, name: string, kind: Kind) returns (r: CreateResult)
      requires Valid() && d < |inodes| && inodes[d].kind == Dir && kind != Free
      modifies this`inodes
      ensures var k := Lookup(old(inodes)[d].ents, name, 0);
              if k < |old(inodes)[d].ents| then
                var i := old(inodes)[d].ents[k].inum;
                i < |old(inodes)| && r == if kind == File && old(inodes)[i].kind == File then Existing(i) else Refused
              else r.Made? || r.NoInode?
      ensures r.Made? ==> 0 < r.i < |old(inodes)| && old(inodes)[r.i].kind == Free
      ensures r.Made? ==> inodes == Created(old(inodes), d, r.i, name, kind)
      ensures r.Made? ==> forall j :: 0 < j < r.i ==> old(inodes)[j].kind != Free
      ensures r.NoInode? ==> forall j :: 0 < j < |inodes| ==> inodes[j].kind != Free
      ensures !r.Made? ==> inodes == old(inodes)
      ensures r.Made? ==>
                && OnlyTwo(old(inodes), inodes, d, r.i) && NewInode(inodes[r.i], kind, d, r.i)
                && inodes[d].nlink == old(inodes)[d].nlink + (if kind == Dir then 1 else 0)
                && NameAdded(old(inodes)[d].ents, inodes[d].ents, name, r.i)
      ensures Valid() <==> !r.Made? || Live(old(inodes)[d])
    {
      assert InodeOk(inodes[d], d, |inodes|);
      var k := Dirlookup(d, name);
      if k < |inodes[d].ents| {
        var i := inodes[d].ents[k].inum;
        if kind == File && inodes[i].kind == File {
          return Existing(i);
        }
        return Refused;
      }
      var i := Ialloc();
      if i == |inodes| {
        return NoInode;
      }
      assert InodeOk(inodes[i], i, |inodes|);
      CreateOk(inodes, pending, d, i, name, kind);
      CreatedNames(inodes, d, i, name, kind);
      hide OnlyTwo, NewInode, NameAdded;
      hide TreeOk, CountsOk, InodeOk, DirOk, Created, Lookup;
      MakeInode(d, i, name, kind);
      return Made(i);
    }

    /** create from ialloc on: the new inode, its dots, and its entry in d. */
    method MakeInode(d: nat, i: nat, name: string, kind: Kind)
      requires d < |inodes| && 0 < i < |inodes| && d != i && Lookup(inodes[d].ents, name, 0) == |inodes[d].ents|
      modifies this`inodes
      ensures inodes == Created(old(inodes), d, i, name, kind)
    {
      DotsAdded(i, d);
      hide Lookup, Added;
      inodes := inodes[i := Inode(kind, 1, [])];
      if kind == Dir {
        inodes := inodes[d := inodes[d].(nlink := inodes[d].nlink + 1)];
        var ok := Dirlink(i, ".", i);
        ok := Dirlink(i, "..", d);
      }
      var ok := Dirlink(d, name, i);
    }

    /** unlink of `name` in directory d: an unlinked directory ends with count 0. */
    method Unlink(d: nat, name: string) returns (ok: bool)
      requires Valid() && d < |inodes| && inodes[d].kind == Dir
      modifies this`inodes
      ensures Valid()
      ensures var k := Lookup(old(inodes)[d].ents, name, 0);
              if !ok then inodes == old(inodes) else
                && k < |old(inodes)[d].ents| && old(inodes)[d].ents[k].inum < |old(inodes)| &&
                      inodes == Unlinked(old(inodes), d, k)
                && (inodes[old(inodes)[d].ents[k].inum].kind == Dir ==> inodes[old(inodes)[d].ents[k].inum].nlink == 0)
      ensures var k := Lookup(old(inodes)[d].ents, name, 0);
              !ok <==> name == "." || name == ".." || k == |old(inodes)[d].ents| ||
                       (old(inodes)[old(inodes)[d].ents[k].inum].kind == Dir &&
                           !Empty(old(inodes)[old(inodes)[d].ents[k].inum]))
      ensures ok ==> exists c: nat :: c < |old(inodes)| && Removed(old(inodes), inodes, d, name, c)
    {
      assert InodeOk(inodes[d], d, |inodes|);
      if name == "." || name == ".." {
        return false;
      }
      var k := Dirlookup(d, name);
      if k == |inodes[d].ents| {
        return false;
      }
      var c := inodes[d].ents[k].inum;
      UnlinkOk(inodes, pending, d, k, c);
      UnlinkedNames(inodes, d, k);
      assert Removed(inodes, Unlinked(inodes, d, k), d, name, c);
      hide Removed, Unlinked;
      hide TreeOk, CountsOk, InodeOk, DirOk, Empty, Lookup;
      if inodes[c].kind == Dir {
        var e := IsDirEmpty(c);
        if !e {
          return false;
        }
      }
      ClearEntry(d, k, c);
      return true;
    }

    /** unlink's writes: the entry, the parent's count and the inode's count. */
    method ClearEntry(d: nat, k: nat, c: nat)
      requires d < |inodes| && k < |inodes[d].ents| && c == inodes[d].ents[k].inum < |inodes| && c != d
      modifies this`inodes
      ensures inodes == Unlinked(old(inodes), d, k)
    {
      inodes := inodes[d := inodes[d].(ents := inodes[d].ents[k := NONE])];
      if inodes[c].kind == Dir {
        inodes := inodes[d := inodes[d].(nlink := inodes[d].nlink - 1)];
      }
      inodes := inodes[c := inodes[c].(nlink := inodes[c].nlink - 1)];
    }

    /** The first half of link: count the new link before it exists. */
    method LinkBegin(i: nat) returns (ok: bool)
      requires Valid() && 0 < i < |inodes| && inodes[i].kind != Free
      modifies this
      ensures Valid() && |inodes| == |old(inodes)| && ok == (old(inodes)[i].kind == File)
      ensures ok ==> inodes == old(inodes)[i := old(inodes)[i].(nlink := old(inodes)[i].nlink + 1)]
      ensures ok ==> pending == old(pending)[i := old(pending)[i] + 1]
      ensures !ok ==> inodes == old(inodes) && pending == old(pending)
    {
      hide TreeOk, CountsOk;
      SameLength(inodes, pending);
      if inodes[i].kind == Dir {
        return false;
      }
      PendingOk(inodes, pending, i, 1);
      inodes := inodes[i := inodes[i].(nlink := inodes[i].nlink + 1)];
      pending := pending[i := pending[i] + 1];
      return true;
    }

    /** The second half: enter it in directory d, or take the count back. */
    method LinkEnd(i: nat, d: nat, name: string) returns (ok: bool)
      requires Valid() && 0 < i < |inodes| && pending[i] > 0 && d < |inodes| && inodes[d].kind == Dir
      modifies this
      ensures |inodes| == |old(inodes)| && pending == old(pending)[i := old(pending)[i] - 1]
      ensures Valid() <==> !ok || Live(old(inodes)[d])
      ensures ok <==> Lookup(old(inodes)[d].ents, name, 0) == |old(inodes)[d].ents|
      ensures inodes == if ok then Linked(old(inodes), d, i, name)
            else old(inodes)[i := old(inodes)[i].(nlink := old(inodes)[i].nlink - 1)]
      ensures ok ==> inodes == old(inodes)[d := old(inodes)[d].(ents := inodes[d].ents)]
                     && NameAdded(old(inodes)[d].ents, inodes[d].ents, name, i)
    {
      LinkEndOk(inodes, pending, i, d, name);
      hide TreeOk, CountsOk;
      ok := Dirlink(d, name, i);
      if !ok {
        inodes := inodes[i := inodes[i].(nlink := inodes[i].nlink - 1)];
      }
      pending := pending[i := pending[i] - 1];
    }

    /** The last iput of an inode without links frees it. */
    method Reclaim(i: nat)
      requires Valid() && 0 < i < |inodes| && inodes[i].nlink == 0
      modifies this`inodes
      ensures Valid() && inodes == old(inodes)[i := Inode(Free, 0, [])]
    {
      ReclaimedOk(inodes, pending, i);
      inodes := inodes[i := Inode(Free, 0, [])];
    }
  }

  /** mkdir d, unlink d while someone still has it open, and a create in it: the new file's count says
      one, and no live directory names it. */
  method CreateInUnlinked() returns (t: FileTree, made: CreateResult)
    ensures fresh(t) && made == Made(3) && |t.inodes| == 4 && t.inodes[3].nlink == 1 && !t.Valid()
  {
    hide TreeOk, CountsOk, Lookup;
    t := MakeAndUnlink();
    NewName(t.inodes[2].ents, "f");
    made := t.Create(2, "f", File);
  }

  /** A directory, inode 2, that has been made and unlinked again. */
  method MakeAndUnlink() returns (t: FileTree)
    ensures fresh(t) && t.Valid() && |t.inodes| == 4 && t.inodes[ROOT].kind == Dir
    ensures t.inodes[2] == Inode(Dir, 0, [Dirent(2, "."), Dirent(ROOT, "..")]) && t.inodes[3] == Inode(Free, 0, [])
  {
    hide TreeOk, CountsOk, Lookup;
    t := new FileTree(4);
    var dots := [Dirent(ROOT, "."), Dirent(ROOT, "..")];
    NewName(dots, "d");
    assert t.inodes[2].kind == Free;
    var made := t.Create(ROOT, "d", Dir);
    assert made == Made(2);
    OldName(dots, 2, "d");
    assert t.inodes[ROOT].ents == dots + [Dirent(2, "d")];
    var ok := t.Unlink(ROOT, "d");
  }

  lemma NewName(ents: seq<Dirent>, name: string)
    requires forall k :: 0 <= k < |ents| ==> ents[k].name != name
    ensures Lookup(ents, name, 0) == |ents|
  {
  }

  lemma OldName(ents: seq<Dirent>, i: nat, name: string)
    requires i > 0 && forall k :: 0 <= k < |ents| ==> ents[k].name != name
    ensures Lookup(ents + [Dirent(i, name)], name, 0) == |ents|
  {
    assert forall k :: 0 <= k < |ents| ==> (ents + [Dirent(i, name)])[k] == ents[k];
    assert (ents + [Dirent(i, name)])[|ents|] == Dirent(i, name);
  }
}
