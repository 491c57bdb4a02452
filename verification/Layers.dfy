/** What a stack of tables means: overlays, first-hit search, and log replay. */
module Layers {
  import opened Base
  import opened Wal

  type Entries = map<Bytes, MemEntry>
  type View = map<Bytes, Bytes>

  function Look(m: View, key: Bytes): Option<Bytes> {
    if key in m then Some(m[key]) else None
  }

  /** The client's view of a table: tombstones are absences. */
  function Live(m: Entries): View {
    map k | k in m && !m[k].tombstone :: m[k].value
  }

  /** A newest-first stack flattened into one table, newer entries winning. */
  function Merge(layers: seq<Entries>): Entries {
    if layers == [] then map[] else Merge(layers[1..]) + layers[0]
  }

  function DropTombstones(m: Entries): Entries {
    map k | k in m && !m[k].tombstone :: m[k]
  }

  /** The read path: the first layer that knows the key decides. */
  function Search(layers: seq<Entries>, key: Bytes): Option<Bytes> {
    if layers == [] then None
    else if key in layers[0] then
      if layers[0][key].tombstone then None else Some(layers[0][key].value)
    else Search(layers[1..], key)
  }

  /** First-hit search, newest first, reads the flattened stack. */
  lemma {:induction false} SearchIsMerge(layers: seq<Entries>, key: Bytes)
    ensures Search(layers, key) == Look(Live(Merge(layers)), key)
  {
    if layers == [] {
    } else {
      SearchIsMerge(layers[1..], key);
    }
  }

  /** Merging everything and dropping tombstones changes no answer. */
  lemma CompactionKeepsAnswers(layers: seq<Entries>, key: Bytes)
    ensures Search([DropTombstones(Merge(layers))], key) == Search(layers, key)
    ensures Live(DropTombstones(Merge(layers))) == Live(Merge(layers))
  {
    SearchIsMerge(layers, key);
  }

  /** What dropping tombstones leaves is the client's view, every row of it live. */
  lemma DropIsLive(m: Entries)
    ensures DropTombstones(m) == map k | k in Live(m) :: MemEntry(Live(m)[k], false)
  {
    forall k | k in Live(m) ensures DropTombstones(m)[k] == MemEntry(Live(m)[k], false) {
      assert m[k] == MemEntry(m[k].value, false);
    }
  }

  // ── overlays ──────────────────────────────────────────────────────────────

  lemma LiveOverlay(a: Entries, b: Entries, r: Entries)
    requires Live(a) == Live(b)
    ensures Live(a + r) == Live(b + r)
  {
    forall k ensures Look(Live(a + r), k) == Look(Live(b + r), k) {
      assert Look(Live(a), k) == Look(Live(b), k);
    }
    SameLooks(Live(a + r), Live(b + r));
  }

  lemma SameLooks(a: View, b: View)
    requires forall k :: Look(a, k) == Look(b, k)
    ensures a == b
  {
    forall k ensures k in a <==> k in b {
      assert Look(a, k) == Look(b, k);
    }
    forall k | k in a ensures a[k] == b[k] {
      assert Look(a, k) == Look(b, k);
    }
  }

  /** Laying `r` over `b` is invisible exactly when each of its keys already reads that way. */
  lemma OverlayInvisible(b: Entries, r: Entries)
    ensures Live(b + r) == Live(b) <==> forall k :: k in r ==> Look(Live(r), k) == Look(Live(b), k)
  {
    if forall k :: k in r ==> Look(Live(r), k) == Look(Live(b), k) {
      forall k ensures Look(Live(b + r), k) == Look(Live(b), k) {
        if k in r { assert Look(Live(r), k) == Look(Live(b), k); }
      }
      SameLooks(Live(b + r), Live(b));
    }
    if Live(b + r) == Live(b) {
      forall k | k in r ensures Look(Live(r), k) == Look(Live(b), k) {
        assert Look(Live(b + r), k) == Look(Live(r), k);
      }
    }
  }

  /** Once `mem` is also below, replaying `r` on top still gives the same view. */
  lemma OverlayAfterFlush(base: Entries, mem: Entries, r: Entries)
    requires Live(base + r) == Live(base + mem)
    ensures Live((base + mem) + r) == Live(base + mem)
  {
    forall k ensures Look(Live((base + mem) + r), k) == Look(Live(base + mem), k) {
      assert Look(Live(base + r), k) == Look(Live(base + mem), k);
    }
    SameLooks(Live((base + mem) + r), Live(base + mem));
  }

  /** Sliding `mem` in between is invisible exactly when each of its keys that `r` does not
      overwrite already reads that way. */
  lemma UnderlayInvisible(b: Entries, mem: Entries, r: Entries)
    ensures Live((b + mem) + r) == Live(b + r) <==>
            forall k :: k in mem && k !in r ==> Look(Live(mem), k) == Look(Live(b), k)
  {
    if forall k :: k in mem && k !in r ==> Look(Live(mem), k) == Look(Live(b), k) {
      forall k ensures Look(Live((b + mem) + r), k) == Look(Live(b + r), k) {
        if k in mem && k !in r { assert Look(Live(mem), k) == Look(Live(b), k); }
      }
      SameLooks(Live((b + mem) + r), Live(b + r));
    }
    if Live((b + mem) + r) == Live(b + r) {
      forall k | k in mem && k !in r ensures Look(Live(mem), k) == Look(Live(b), k) {
        assert Look(Live((b + mem) + r), k) == Look(Live(mem), k);
        assert Look(Live(b + r), k) == Look(Live(b), k);
      }
    }
  }

  lemma OverlayWrite(a: Entries, b: Entries, k: Bytes, e: MemEntry)
    ensures a + b[k := e] == (a + b)[k := e]
  {
  }

  lemma OverlayAssoc(a: Entries, b: Entries, c: Entries)
    ensures (a + b) + c == a + (b + c)
  {
  }

  // ── operations and replay ─────────────────────────────────────────────────

  /** The slot a logged operation writes: anything that is not Put deletes. */
  function EntryOf(r: Record): MemEntry {
    if r.op == PUT then MemEntry(r.value, false) else MemEntry([], true)
  }

  /** What the operation means to the client. */
  function Apply(m: View, r: Record): View {
    if r.op == PUT then m[r.key := r.value] else m - {r.key}
  }

  lemma LiveWrite(m: Entries, r: Record)
    ensures Live(m[r.key := EntryOf(r)]) == Apply(Live(m), r)
  {
  }

  function Replayed(rs: seq<Record>): Entries {
    if rs == [] then map[] else Replayed(rs[..|rs| - 1])[rs[|rs| - 1].key := EntryOf(rs[|rs| - 1])]
  }

  lemma ReplayedSnoc(rs: seq<Record>, r: Record)
    ensures Replayed(rs + [r]) == Replayed(rs)[r.key := EntryOf(r)]
  {
    assert (rs + [r])[..|rs|] == rs;
  }

  /** `rs[i]` is the last record for `key`. */
  ghost predicate IsLast(rs: seq<Record>, i: int, key: Bytes) {
    0 <= i < |rs| && rs[i].key == key && forall j :: i < j < |rs| ==> rs[j].key != key
  }

  /** Writing records in order leaves, for every key, what the last record for it says, and
      nothing for keys no record names. */
  lemma {:induction false} ReplayedIsLast(rs: seq<Record>, key: Bytes)
    ensures key in Replayed(rs) <==> exists i :: IsLast(rs, i, key)
    ensures forall i :: IsLast(rs, i, key) ==>
              key in Replayed(rs) &&
              Replayed(rs)[key] == if rs[i].op == 0 then MemEntry(rs[i].value, false) else MemEntry([], true)
  {
    if rs == [] {
    } else if rs[|rs| - 1].key == key {
      assert IsLast(rs, |rs| - 1, key);
    } else {
      var front := rs[..|rs| - 1];
      ReplayedIsLast(front, key);
      assert forall i :: IsLast(rs, i, key) <==> IsLast(front, i, key);
    }
  }

  /** A value that shows over `a` after `b` was replayed, and that no record of `b` put there,
      showed before. */
  lemma {:induction false} ShownBefore(base: Entries, a: seq<Record>, b: seq<Record>, r: Record)
    requires r.op == PUT && r !in b && Look(Live(base + Replayed(a + b)), r.key) == Some(r.value)
    ensures Look(Live(base + Replayed(a)), r.key) == Some(r.value)
    decreases |b|
  {
    if b == [] {
      assert a + b == a;
    } else {
      var front, last := b[..|b| - 1], b[|b| - 1];
      assert a + b == (a + front) + [last] && last in b;
      ReplayedSnoc(a + front, last);
      ShownBefore(base, a, front, r);
    }
  }

  ghost function Top(ids: set<nat>): (t: nat)
    requires ids != {}
    ensures t in ids && forall i :: i in ids ==> i <= t
  {
    TopExists(ids);
    var t :| t in ids && forall i :: i in ids ==> i <= t;
    t
  }

  lemma {:induction false} TopExists(ids: set<nat>)
    requires ids != {}
    ensures exists t :: t in ids && forall i :: i in ids ==> i <= t
  {
    var x :| x in ids;
    var rest := ids - {x};
    if rest == {} {
      forall i | i in ids ensures i <= x { assert i == x || i in rest; }
    } else {
      TopExists(rest);
      var t :| t in rest && forall i :: i in rest ==> i <= t;
      var best := if t < x then x else t;
      forall i | i in ids ensures i <= best { assert i == x || i in rest; }
      assert best in ids;
    }
  }

  /** All segments replayed in ascending id order. */
  ghost function ReplayAll(logs: map<nat, Bytes>): Entries
    decreases |logs|
  {
    if logs == map[] then map[]
    else ReplayAll(logs - {Top(logs.Keys)}) + Replayed(Parse(logs[Top(logs.Keys)]))
  }

  lemma ReplayTop(logs: map<nat, Bytes>, id: nat)
    requires id in logs && forall i :: i in logs ==> i <= id
    ensures ReplayAll(logs) == ReplayAll(logs - {id}) + Replayed(Parse(logs[id]))
  {
  }

  /** Replacing the contents of the newest segment only replaces what is replayed last. */
  lemma ReplayTopChanged(logs: map<nat, Bytes>, id: nat, b: Bytes)
    requires forall i :: i in logs ==> i <= id
    ensures ReplayAll(logs[id := b]) == ReplayAll(logs - {id}) + Replayed(Parse(b))
  {
    ReplayTop(logs[id := b], id);
    assert logs[id := b] - {id} == logs - {id};
  }

  /** Every key of every segment is replayed. */
  lemma {:induction false} ReplayCovers(logs: map<nat, Bytes>, id: nat, key: Bytes)
    requires id in logs && key in Replayed(Parse(logs[id]))
    ensures key in ReplayAll(logs)
    decreases |logs|
  {
    var top := Top(logs.Keys);
    if id == top {
    } else {
      ReplayCovers(logs - {top}, id, key);
    }
  }

  /** Segments without records replay to nothing. */
  lemma {:induction false} ReplaySilent(logs: map<nat, Bytes>)
    requires forall i :: i in logs ==> Parse(logs[i]) == []
    ensures ReplayAll(logs) == map[]
    decreases |logs|
  {
    if logs == map[] {
    } else {
      ReplaySilent(logs - {Top(logs.Keys)});
    }
  }

  /** One more record at the end of the newest segment is one more write. */
  lemma ReplayWrite(logs: map<nat, Bytes>, id: nat, b: Bytes, r: Record)
    requires id in logs && forall i :: i in logs ==> i <= id
    requires Parse(b) == Parse(logs[id]) + [r]
    ensures ReplayAll(logs[id := b]) == ReplayAll(logs)[r.key := EntryOf(r)]
  {
    ReplayTop(logs, id);
    ReplayTopChanged(logs, id, b);
    ReplayedSnoc(Parse(logs[id]), r);
    OverlayWrite(ReplayAll(logs - {id}), Replayed(Parse(logs[id])), r.key, EntryOf(r));
  }

  /** A new, empty newest segment replays to nothing more. */
  lemma ReplayNewSegment(logs: map<nat, Bytes>, id: nat)
    requires id !in logs && forall i :: i in logs ==> i <= id
    ensures ReplayAll(logs[id := []]) == ReplayAll(logs)
  {
    ReplayTopChanged(logs, id, []);
    assert logs - {id} == logs;
  }
}
