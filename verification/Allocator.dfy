/** `FileIdAllocator`: interning paths to file ids, seeding from sorted paths or from the
    file tables of earlier shards, and copying the referenced paths into a builder. */
module Allocator {
  import opened Bytes
  import opened Protocol

  datatype Entry = Entry(id: nat, accessed: bool)

  ghost function Ids(inner: map<Path, Entry>): (r: map<Path, nat>)
  {
    map p | p in inner :: inner[p].id
  }

  ghost function Accessed(inner: map<Path, Entry>): (r: set<Path>)
  {
    set p | p in inner && inner[p].accessed
  }

  /** No path of `old` was renumbered or lost its mark. */
  ghost predicate Keeps(older: map<Path, Entry>, newer: map<Path, Entry>)
  {
    forall p | p in older :: p in newer && newer[p] == older[p]
  }

  class FileIdAllocator {
    var inner: map<Path, Entry>
    var next: nat

    constructor ()
      ensures inner == map[] && next == 0
    {
      inner, next := map[], 0;
    }

    /** Exactly the step `Interned` of the protocol. */
    method Intern(path: Path) returns (id: nat)
      modifies this
      ensures path in Ids(inner) && id == Ids(inner)[path]
      ensures Accessed(inner) == old(Accessed(inner)) + {path}
      ensures path in old(inner) ==> Ids(inner) == old(Ids(inner)) && next == old(next)
      ensures path !in old(inner) ==> Ids(inner) == old(Ids(inner))[path := old(next)] && next == old(next) + 1
    {
      if path in inner {
        id := inner[path].id;
        inner := inner[path := Entry(id, true)];
      } else {
        id := next;
        next := next + 1;
        inner := inner[path := Entry(id, true)];
      }
    }

    /** On a fresh allocator and a duplicate-free list, every path's id is its rank and
        none is marked referenced; on any allocator, first id wins. */
    method SeedPaths(paths: seq<Path>)
      modifies this
      ensures Keeps(old(inner), inner) && Accessed(inner) == old(Accessed(inner))
      ensures inner.Keys == old(inner.Keys) + (set p | p in paths)
      ensures old(inner) == map[] && old(next) == 0 && (forall i, j :: 0 <= i < j < |paths| ==> paths[i] != paths[j]) ==>
        SeededPaths(paths, Ids(inner), next)
    {
      var k := 0;
      while k < |paths|
        invariant 0 <= k <= |paths|
        invariant Keeps(old(inner), inner) && Accessed(inner) == old(Accessed(inner))
        invariant inner.Keys == old(inner.Keys) + (set p | p in paths[..k])
        invariant old(inner) == map[] && old(next) == 0 && (forall i, j :: 0 <= i < j < |paths| ==> paths[i] != paths[j]) ==>
          SeededPaths(paths[..k], Ids(inner), next)
      {
        assert paths[..k + 1] == paths[..k] + [paths[k]];
        if paths[k] !in inner {
          inner := inner[paths[k] := Entry(next, false)];
          next := next + 1;
        }
        k := k + 1;
      }
      assert paths[..k] == paths;
    }

    /** One file table, row by row: first id wins, and the counter ends past every id. */
    method SeedFrom(rows: seq<(nat, Path)>)
      modifies this
      ensures Keeps(old(inner), inner) && Accessed(inner) == old(Accessed(inner))
      ensures inner.Keys == old(inner.Keys) + (set k | 0 <= k < |rows| :: rows[k].1)
      ensures forall p | p in inner && p !in old(inner) :: exists k :: 0 <= k < |rows| && rows[k] == (inner[p].id, p)
      ensures next >= old(next) && forall k | 0 <= k < |rows| :: rows[k].0 < next
    {
      var k := 0;
      while k < |rows|
        invariant 0 <= k <= |rows|
        invariant Keeps(old(inner), inner) && Accessed(inner) == old(Accessed(inner))
        invariant inner.Keys == old(inner.Keys) + (set j | 0 <= j < k :: rows[j].1)
        invariant forall p | p in inner && p !in old(inner) :: exists j :: 0 <= j < k && rows[j] == (inner[p].id, p)
        invariant next >= old(next) && forall j | 0 <= j < k :: rows[j].0 < next
      {
        var (id, path) := rows[k];
        if path !in inner {
          inner := inner[path := Entry(id, false)];
          assert rows[k] == (inner[path].id, path);
        }
        if id >= next { next := id + 1; }
        k := k + 1;
      }
    }

    /** `push_to`: first-write-wins upserts of the referenced paths, in any order. When ids
        are one-to-one the outcome is the accessed table over what the builder had. */
    method PushTo(files: map<nat, Path>) returns (r: map<nat, Path>)
      requires Injective(Ids(inner))
      ensures Pushed(inner, inner.Keys, files, r)
    {
      r := files;
      var m, todo, done := inner, inner.Keys, {};
      while todo != {}
        invariant m == inner && todo + done == m.Keys && todo !! done && Pushed(m, done, files, r)
      {
        var p :| p in todo;
        PushOne(m, done, files, r, p);
        if m[p].accessed && m[p].id !in r { r := r[m[p].id := p]; }
        todo, done := todo - {p}, done + {p};
      }
      assert done == m.Keys;
    }
  }

  /** `r` is `files` plus the referenced paths of `done` whose ids `files` did not have. */
  ghost predicate Pushed(m: map<Path, Entry>, done: set<Path>, files: map<nat, Path>, r: map<nat, Path>)
  {
    && (forall id | id in files :: id in r && r[id] == files[id])
    && (forall p | p in done && p in m && m[p].accessed :: m[p].id in r && (m[p].id !in files ==> r[m[p].id] == p))
    && (forall id | id in r && id !in files :: r[id] in done && r[id] in m && m[r[id]] == Entry(id, true))
  }

  lemma PushOne(m: map<Path, Entry>, done: set<Path>, files: map<nat, Path>, r: map<nat, Path>, p: Path)
    requires Injective(Ids(m)) && Pushed(m, done, files, r) && p in m && p !in done
    ensures Pushed(m, done + {p}, files, if m[p].accessed && m[p].id !in r then r[m[p].id := p] else r)
  {
    assert forall q | q in m && m[q].id == m[p].id :: Ids(m)[q] == Ids(m)[p];
  }

  /** Into an empty builder, that is the protocol's accessed table. */
  lemma PushedIsTable(m: map<Path, Entry>, r: map<nat, Path>, s: State)
    requires Injective(Ids(m)) && Pushed(m, m.Keys, map[], r)
    requires s.alloc == Ids(m) && s.accessed == Accessed(m)
    ensures r == AccessedTable(s)
  {
    assert forall id | id in r :: r[id] in s.accessed && s.alloc[r[id]] == id;
    assert forall p | p in s.accessed :: s.alloc[p] in r && r[s.alloc[p]] == p;
  }

  /** A shard's file table as rows. */
  ghost predicate TableOf(rows: seq<(nat, Path)>, files: map<nat, Path>)
  {
    && (forall k | 0 <= k < |rows| :: rows[k].0 in files && files[rows[k].0] == rows[k].1)
    && (forall id | id in files :: exists k :: 0 <= k < |rows| && rows[k] == (id, files[id]))
  }

  /** Seeding a fresh allocator from every shard's table, in any order, gives a state a
      resumed run of the protocol may start from. */
  method SeedAll(a: FileIdAllocator, tables: seq<seq<(nat, Path)>>, ghost shards: map<nat, Shard>, ghost index: seq<nat>)
    requires a.inner == map[] && |index| == |tables|
    requires forall i | i in shards :: i in index
    requires forall t | 0 <= t < |tables| :: index[t] in shards && TableOf(tables[t], shards[index[t]].files)
    modifies a
    ensures SeededFrom(shards, Ids(a.inner), a.next) && Accessed(a.inner) == {}
  {
    var t := 0;
    while t < |tables|
      invariant 0 <= t <= |tables| && Accessed(a.inner) == {}
      invariant forall u, k | 0 <= u < t && 0 <= k < |tables[u]| :: tables[u][k].1 in a.inner && tables[u][k].0 < a.next
      invariant forall p | p in a.inner :: Backed(shards, a.inner[p].id, p)
    {
      a.SeedFrom(tables[t]);
      t := t + 1;
    }
    forall i, id | i in shards && id in shards[i].files ensures shards[i].files[id] in Ids(a.inner) && id < a.next {
      var u :| 0 <= u < |index| && index[u] == i;
      var k :| 0 <= k < |tables[u]| && tables[u][k] == (id, shards[i].files[id]);
      assert tables[u][k].1 in a.inner;
    }
    forall p | p in Ids(a.inner)
      ensures exists i :: i in shards && Ids(a.inner)[p] in shards[i].files && shards[i].files[Ids(a.inner)[p]] == p
    {
      assert Backed(shards, a.inner[p].id, p);
    }
  }

  /** Some shard lists the path under this id. */
  ghost predicate Backed(shards: map<nat, Shard>, id: nat, p: Path)
  {
    exists i :: i in shards && id in shards[i].files && shards[i].files[id] == p
  }
}
