/** The part of a `toml_edit` document the manifest generation touches: a
    tree of standard tables whose leaves are values. */
module Toml {
  import opened Results

  /** A string value, any other value kept as its text (numbers, arrays,
      inline tables, ...), or a standard table. */
  datatype Item = Str(s: string) | OtherValue(text: string) | Table(entries: map<string, Item>)

  type Entries = map<string, Item>

  /** Follows `entry(key).or_insert(Table::new()).as_table_mut()` along `path`:
      a missing key stands for a new empty table, a key holding anything but
      a standard table stops the walk with `None`. */
  function TableAt(entries: Entries, path: seq<string>): Option<Entries>
    decreases |path|
  {
    if |path| == 0 then Some(entries)
    else if path[0] !in entries then TableAt(map[], path[1..])
    else
      match entries[path[0]]
      case Table(sub) => TableAt(sub, path[1..])
      case _ => None
  }

  /** The document after the walk created the missing tables along `path`
      and the table at its end was replaced by `t`. */
  function PutTableAt(entries: Entries, path: seq<string>, t: Entries): Entries
    requires TableAt(entries, path).Some?
    decreases |path|
  {
    if |path| == 0 then t
    else
      var sub := if path[0] in entries then entries[path[0]].entries else map[];
      entries[path[0] := Table(PutTableAt(sub, path[1..], t))]
  }

  /** Reading back the table just written gives it back. */
  lemma {:induction false} TableAtPut(entries: Entries, path: seq<string>, t: Entries)
    requires TableAt(entries, path).Some?
    ensures TableAt(PutTableAt(entries, path, t), path) == Some(t)
    decreases |path|
  {
    if |path| > 0 {
      var sub := if path[0] in entries then entries[path[0]].entries else map[];
      TableAtPut(sub, path[1..], t);
    }
  }

  /** The item at a key path, reading only: `None` when some key is missing
      or a key before the last holds anything but a standard table. */
  function Lookup(entries: Entries, q: seq<string>): Option<Item>
    requires |q| > 0
    decreases |q|
  {
    if q[0] !in entries then None
    else if |q| == 1 then Some(entries[q[0]])
    else
      match entries[q[0]]
      case Table(sub) => Lookup(sub, q[1..])
      case _ => None
  }

  /** Writing at `path` leaves every key path that branches off it as it
      was: the item there (or its absence) is unchanged, at every depth. */
  lemma {:induction false} PutTableAtFrame(entries: Entries, path: seq<string>, t: Entries, q: seq<string>)
    requires TableAt(entries, path).Some?
    requires |q| > 0 && !(q <= path) && !(path <= q)
    ensures Lookup(PutTableAt(entries, path, t), q) == Lookup(entries, q)
    decreases |path|
  {
    if q[0] == path[0] {
      assert |q| > 1;
      assert !(q[1..] <= path[1..]) && !(path[1..] <= q[1..]) by {
        assert q == [q[0]] + q[1..] && path == [path[0]] + path[1..];
      }
      var sub := if path[0] in entries then entries[path[0]].entries else map[];
      PutTableAtFrame(sub, path[1..], t, q[1..]);
    }
  }

  /** The two documents agree on every key path that branches off `path`. */
  ghost predicate AgreeOffPath(a: Entries, b: Entries, path: seq<string>) {
    forall q :: |q| > 0 && !(q <= path) && !(path <= q) ==> Lookup(a, q) == Lookup(b, q)
  }

  /** `PutTableAtFrame` for all key paths at once. */
  lemma PutTableAtAgrees(entries: Entries, path: seq<string>, t: Entries)
    requires TableAt(entries, path).Some?
    ensures AgreeOffPath(PutTableAt(entries, path, t), entries, path)
  {
    forall q | |q| > 0 && !(q <= path) && !(path <= q)
      ensures Lookup(PutTableAt(entries, path, t), q) == Lookup(entries, q)
    {
      PutTableAtFrame(entries, path, t, q);
    }
  }

  /** Writing at `path` adds at most the first key of the path to the document. */
  lemma PutTableAtKeys(entries: Entries, path: seq<string>, t: Entries)
    requires |path| > 0 && TableAt(entries, path).Some?
    ensures PutTableAt(entries, path, t).Keys == entries.Keys + {path[0]}
  {
  }
}
