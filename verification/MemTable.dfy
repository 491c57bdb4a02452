/** The sorted write buffer of `src/memtable.cpp`, with its byte count. */
module MemTable {
  import opened Base

  /** Key and value lengths summed over the table. */
  ghost function Footprint(m: map<Bytes, MemEntry>): nat {
    if m == map[] then 0
    else
      var k := LeastOf(m.Keys);
      |k| + |m[k].value| + Footprint(m - {k})
  }

  lemma {:induction false} FootprintSplit(m: map<Bytes, MemEntry>, k: Bytes)
    requires k in m
    ensures Footprint(m) == |k| + |m[k].value| + Footprint(m - {k})
    decreases |m|
  {
    var least := LeastOf(m.Keys);
    if k == least {
    } else {
      FootprintSplit(m - {least}, k);
      FootprintSplit(m - {k}, least);
      assert m - {least} - {k} == m - {k} - {least};
    }
  }

  /** Writing one slot moves the total by the difference of that slot alone. */
  lemma FootprintUpdate(m: map<Bytes, MemEntry>, k: Bytes, e: MemEntry)
    ensures k !in m ==> Footprint(m[k := e]) == Footprint(m) + |k| + |e.value|
    ensures k in m ==> Footprint(m) >= |k| + |m[k].value| &&
                       Footprint(m[k := e]) == Footprint(m) - |m[k].value| + |e.value|
  {
    FootprintSplit(m[k := e], k);
    assert m[k := e] - {k} == m - {k};
    if k in m {
      FootprintSplit(m, k);
    } else {
      assert m - {k} == m;
    }
  }

  class MemTable {
    var data: map<Bytes, MemEntry>
    var bytes: nat

    ghost predicate Valid()
      reads this
    {
      bytes == Footprint(data)
    }

    constructor ()
      ensures Valid() && data == map[]
    {
      data, bytes := map[], 0;
    }

    /** The subtraction cannot wrap: the old value's length is part of the total. */
    method Put(key: Bytes, value: Bytes)
      requires Valid()
      modifies this
      ensures Valid() && data == old(data)[key := MemEntry(value, false)]
    {
      FootprintUpdate(data, key, MemEntry(value, false));
      if key in data {
        bytes := bytes - |data[key].value|;
        data := data[key := MemEntry(value, false)];
      } else {
        data := data[key := MemEntry(value, false)];
        bytes := bytes + |key|;
      }
      bytes := bytes + |value|;
    }

    method Del(key: Bytes)
      requires Valid()
      modifies this
      ensures Valid() && data == old(data)[key := MemEntry([], true)]
    {
      FootprintUpdate(data, key, MemEntry([], true));
      if key in data {
        bytes := bytes - |data[key].value|;
        data := data[key := MemEntry([], true)];
      } else {
        data := data[key := MemEntry([], true)];
        bytes := bytes + |key|;
      }
    }

    function Raw(key: Bytes): (e: Option<MemEntry>)
      reads this
      ensures e.Some? <==> key in data
      ensures e.Some? ==> e.value == data[key]
    {
      if key in data then Some(data[key]) else None
    }

    method Clear()
      modifies this
      ensures Valid() && data == map[] && bytes == 0
    {
      data, bytes := map[], 0;
    }
  }
}
