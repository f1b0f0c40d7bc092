/** The configuration database as a value: table name -> key -> field map.
    The connector library that stores it is not part of this model; the handlers
    only read tables and entries and write them back through `set_entry`
    (replace or delete one entry) and `mod_entry` (merge fields into one entry),
    and those two writes are given their plain map meaning here. */
module ConfigDb {
  import opened Common

  /** A table key: a plain name (`"Vlan10"`), or a two-part key such as
      `("Vlan10", "Ethernet0")`, which the connector splits at `|`. */
  datatype Key = Name(name: string) | Pair(first: string, second: string)

  /** A field value: a string, or a list (a field stored as `name@`). */
  datatype Field = Scalar(s: string) | List(items: seq<string>)

  type Entry = map<string, Field>
  type Table = map<Key, Entry>
  type Db = map<string, Table>

  /** `get_table(t)`: an absent table reads as empty. */
  function GetTable(db: Db, t: string): Table {
    if t in db then db[t] else map[]
  }

  /** `get_entry(t, k)`: an absent entry reads as empty. */
  function GetEntry(db: Db, t: string, k: Key): Entry {
    var tb := GetTable(db, t);
    if k in tb then tb[k] else map[]
  }

  /** `entry.get(f, [])` on a list field. */
  function ListField(e: Entry, f: string): seq<string> {
    if f in e && e[f].List? then e[f].items else []
  }

  /** The entry holds field `f` with value `v`. */
  predicate FieldIs(e: Entry, f: string, v: Field) {
    f in e && e[f] == v
  }

  /** The two entries agree on every field other than `f`. */
  predicate SameOtherFields(a: Entry, b: Entry, f: string) {
    && (forall g :: g in a && g != f ==> g in b && b[g] == a[g])
    && (forall g :: g in b && g != f ==> g in a)
  }

  /** `l = e.get(f, []); l.append(x); e[f] = l`. */
  function AppendItem(e: Entry, f: string, x: string): (r: Entry)
    ensures ListField(r, f) == ListField(e, f) + [x]
    ensures r.Keys == e.Keys + {f}
    ensures forall g :: g in e && g != f ==> g in r && r[g] == e[g]
  {
    e[f := List(ListField(e, f) + [x])]
  }

  /** `l = e.get(f, []); l.remove(x)`, then `del e[f]` when `l` is left empty
      and `e[f] = l` otherwise. */
  function RemoveItem(e: Entry, f: string, x: string): (r: Entry)
    requires x in ListField(e, f)
    ensures multiset(ListField(r, f)) == multiset(ListField(e, f)) - multiset{x}
    ensures f !in r <==> |ListField(e, f)| == 1
    ensures r.Keys - {f} == e.Keys - {f}
    ensures forall g :: g in e && g != f ==> g in r && r[g] == e[g]
  {
    var items := RemoveFirst(ListField(e, f), x);
    if |items| == 0 then e - {f} else e[f := List(items)]
  }

  /** Removing an item just appended gives back the entry, when the field was
      a non-empty list or absent. */
  lemma RemoveAppended(e: Entry, f: string, x: string)
    requires f in e ==> e[f].List? && e[f].items != []
    requires x !in ListField(e, f)
    ensures x in ListField(AppendItem(e, f, x), f)
    ensures RemoveItem(AppendItem(e, f, x), f, x) == e
  {
    var m := ListField(e, f);
    RemoveFirstAppended(m, x);
    RestoreField(e, f, m + [x], m);
  }

  /** Writing a list field and then the old list back restores the entry. */
  lemma RestoreField(e: Entry, f: string, items: seq<string>, m: seq<string>)
    requires m == ListField(e, f)
    requires f in e ==> e[f].List? && e[f].items != []
    ensures (if |m| == 0 then e[f := List(items)] - {f} else e[f := List(items)][f := List(m)]) == e
  {
    if |m| == 0 {
      assert f !in e;
    } else {
      assert e[f] == List(m);
    }
  }

  /** `set_entry(t, k, data)`: `Some(data)` replaces the entry, `None` deletes it. */
  function SetEntry(db: Db, t: string, k: Key, data: Option<Entry>): (r: Db)
    ensures GetEntry(r, t, k) == (if data.Some? then data.value else map[])
    ensures forall t', k' :: (t', k') != (t, k) ==> GetEntry(r, t', k') == GetEntry(db, t', k')
    ensures forall t' :: t' != t ==> GetTable(r, t') == GetTable(db, t')
    ensures GetTable(r, t).Keys == if data.Some? then GetTable(db, t).Keys + {k} else GetTable(db, t).Keys - {k}
  {
    var tb := GetTable(db, t);
    db[t := if data.Some? then tb[k := data.value] else tb - {k}]
  }

  /** `mod_entry(t, k, fields)`: merges `fields` into the entry (creating it if absent). */
  function ModEntry(db: Db, t: string, k: Key, fields: Entry): (r: Db)
    ensures GetEntry(r, t, k).Keys == GetEntry(db, t, k).Keys + fields.Keys
    ensures forall f :: f in fields ==> GetEntry(r, t, k)[f] == fields[f]
    ensures forall f :: f in GetEntry(db, t, k) && f !in fields ==> GetEntry(r, t, k)[f] == GetEntry(db, t, k)[f]
    ensures forall t', k' :: (t', k') != (t, k) ==> GetEntry(r, t', k') == GetEntry(db, t', k')
    ensures forall t' :: t' != t ==> GetTable(r, t') == GetTable(db, t')
    ensures GetTable(r, t).Keys == GetTable(db, t).Keys + {k}
  {
    SetEntry(db, t, k, Some(GetEntry(db, t, k) + fields))
  }

  /** A second merge into the same entry that sets every field of the first
      leaves no trace of the first. */
  lemma ModEntryOverwrite(db: Db, t: string, k: Key, first: Entry, second: Entry)
    requires first.Keys <= second.Keys
    ensures GetEntry(ModEntry(ModEntry(db, t, k, first), t, k, second), t, k) == GetEntry(ModEntry(db, t, k, second), t, k)
  {
    var e := GetEntry(db, t, k);
    var once := ModEntry(db, t, k, first);
    assert GetEntry(once, t, k) == e + first;
    assert GetEntry(ModEntry(once, t, k, second), t, k) == (e + first) + second;
    assert GetEntry(ModEntry(db, t, k, second), t, k) == e + second;
    assert (e + first) + second == e + second;
  }

  /** Two databases that agree on every entry of every table. */
  ghost predicate SameEntries(a: Db, b: Db) {
    forall t, k :: GetEntry(a, t, k) == GetEntry(b, t, k)
  }
}
