/**
 * The process-wide symbol table (`symbols`) and the sprite file it is
 * written to. The table maps symbol identifiers to symbol markup and keeps
 * the order its keys were first inserted, which is the order the document
 * lists them in. Every write of the sprite file is recorded, with the full
 * document written, in the state's `writes`.
 */
module Symbols {
  import opened Options
  import Sprite

  /** The `symbols` object: its entries and its key order. */
  datatype Table = Table(entries: map<string, string>, order: seq<string>)

  /** The table together with every document written to the sprite file. */
  datatype State = State(symbols: Table, writes: seq<string>)

  /** The state at the start of a build: nothing stored, nothing written. */
  const Empty: State := State(Table(map[], []), [])

  /** `order` lists every key of the table exactly once. */
  predicate Valid(t: Table)
  {
    && (forall i, j :: 0 <= i < j < |t.order| ==> t.order[i] != t.order[j])
    && (forall i :: 0 <= i < |t.order| ==> t.order[i] in t.entries)
    && (forall id :: id in t.entries ==> id in t.order)
    && |t.order| == |t.entries|
  }

  /** `symbols[id]` read as a string; every key of the table is read
      through here, so the empty default is never seen on a valid table. */
  function Lookup(t: Table, id: string): string
  {
    if id in t.entries then t.entries[id] else ""
  }

  /** The stored markups in key order (`Object.keys(symbols).map(...)`). */
  function Stored(t: Table): (r: seq<string>)
    ensures |r| == |t.order|
    ensures Valid(t) ==> forall i :: 0 <= i < |r| ==> r[i] == t.entries[t.order[i]]
  {
    seq(|t.order|, i requires 0 <= i < |t.order| => Lookup(t, t.order[i]))
  }

  /** The document `writeSvg` writes for a table. */
  function Snapshot(t: Table): string
  {
    Sprite.Document(Stored(t))
  }

  /** `symbols[id]` is truthy: the identifier is stored with non-empty markup. */
  predicate Holds(t: Table, id: string)
  {
    id in t.entries && t.entries[id] != ""
  }

  /** Every stored markup is non-empty, so `Holds` is plain membership. */
  predicate Truthy(t: Table)
  {
    forall id :: id in t.entries ==> t.entries[id] != ""
  }

  /** Every stored markup is a non-empty single line. */
  predicate SingleLineEntries(t: Table)
  {
    forall id :: id in t.entries ==> Sprite.SingleLine(t.entries[id])
  }

  /** The last document written is the one for the current table. */
  predicate Synced(st: State)
  {
    |st.writes| > 0 ==> st.writes[|st.writes| - 1] == Snapshot(st.symbols)
  }

  /** `symbols[id] = markup` on an object: a new key goes to the end of the
      key order, an existing key keeps its place. */
  function Store(t: Table, id: string, markup: string): (t': Table)
    ensures Valid(t) ==> Valid(t')
    ensures t'.entries == t.entries[id := markup]
    ensures t'.order == if id in t.entries then t.order else t.order + [id]
    ensures t.order <= t'.order
  {
    StoreKeepsValid(t, id, markup);
    if id in t.entries then Table(t.entries[id := markup], t.order)
    else Table(t.entries[id := markup], t.order + [id])
  }

  lemma StoreKeepsValid(t: Table, id: string, markup: string)
    ensures Valid(t) && id in t.entries ==> Valid(Table(t.entries[id := markup], t.order))
    ensures Valid(t) && id !in t.entries ==> Valid(Table(t.entries[id := markup], t.order + [id]))
  {
    if Valid(t) && id !in t.entries {
      var entries := t.entries[id := markup];
      var order := t.order + [id];
      assert |entries| == |t.entries| + 1;
      assert forall i :: 0 <= i < |t.order| ==> order[i] == t.order[i];
      assert forall k :: k in entries ==> k == id || k in t.entries;
    }
  }

  /** The document lists symbols in insertion order: storing under a new
      key appends its markup at the end. */
  lemma StoredAppends(t: Table, id: string, markup: string)
    requires Valid(t) && id !in t.entries
    ensures Stored(Store(t, id, markup)) == Stored(t) + [markup]
  {
    var t' := Store(t, id, markup);
    StoredAppendsTo(t, id, markup, t');
  }

  lemma StoredAppendsTo(t: Table, id: string, markup: string, t': Table)
    requires forall i :: 0 <= i < |t.order| ==> t.order[i] in t.entries
    requires id !in t.entries
    requires t'.entries == t.entries[id := markup] && t'.order == t.order + [id]
    ensures Stored(t') == Stored(t) + [markup]
  {
    var expected := Stored(t) + [markup];
    forall i | 0 <= i < |t'.order|
      ensures Stored(t')[i] == expected[i]
    {
      if i < |t.order| {
        assert t'.order[i] == t.order[i] != id;
        assert Stored(t)[i] == Lookup(t, t.order[i]);
      }
    }
  }

  /** Storing under an existing key replaces that key's markup where it
      stands, leaving the rest of the document as it was. */
  lemma StoredReplaces(t: Table, id: string, markup: string)
    requires Valid(t) && id in t.entries
    ensures |Stored(Store(t, id, markup))| == |Stored(t)|
    ensures forall i :: 0 <= i < |Stored(t)| ==>
              Stored(Store(t, id, markup))[i] == (if t.order[i] == id then markup else Stored(t)[i])
  {
    var t' := Store(t, id, markup);
    assert t'.order == t.order;
    forall i | 0 <= i < |t.order|
      ensures Stored(t')[i] == (if t.order[i] == id then markup else Stored(t)[i])
    {
      assert Stored(t')[i] == Lookup(t', t.order[i]);
      assert Stored(t)[i] == Lookup(t, t.order[i]);
    }
  }

  /** The table half of a render's step: when `id` does not hold, store
      `markup` under it; otherwise leave the table alone. After it `id` is
      a key, holding `markup` unless it held before, and no other key is
      added or changed. */
  function Put(t: Table, id: string, markup: string): (t': Table)
    ensures Valid(t) ==> Valid(t')
    ensures Holds(t, id) ==> t' == t
    ensures t'.entries.Keys == t.entries.Keys + {id}
    ensures forall k :: k in t.entries && k != id ==> t'.entries[k] == t.entries[k]
    ensures !Holds(t, id) ==> t'.entries[id] == markup
    ensures t.order <= t'.order
  {
    if Holds(t, id) then t else Store(t, id, markup)
  }

  /** The table step of a render together with the sprite write: when `id`
      does not hold, store `markup` under it and rewrite the sprite file
      with the whole table; otherwise change nothing. */
  function Ensure(st: State, id: string, markup: string): (st': State)
    ensures st'.symbols == Put(st.symbols, id, markup)
    ensures Holds(st.symbols, id) ==> st' == st
    ensures st.writes <= st'.writes
    ensures |st'.writes| == |st.writes| + (if Holds(st.symbols, id) then 0 else 1)
    ensures !Holds(st.symbols, id) ==> st'.writes[|st.writes|] == Snapshot(st'.symbols)
  {
    var t := Put(st.symbols, id, markup);
    if Holds(st.symbols, id) then st else State(t, st.writes + [Snapshot(t)])
  }

  /** The step keeps the last write in step with the table. */
  lemma EnsureSynced(st: State, id: string, markup: string)
    ensures Synced(st) ==> Synced(Ensure(st, id, markup))
  {
  }

  /** With non-empty entries and non-empty `markup`, the file is written
      exactly when a key is added; single-line entries stay single-line. */
  lemma EnsureKeepsEntries(st: State, id: string, markup: string)
    ensures var st' := Ensure(st, id, markup);
            Truthy(st.symbols) && markup != "" ==>
              && Truthy(st'.symbols)
              && |st'.writes| - |st.writes| == |st'.symbols.order| - |st.symbols.order|
    ensures SingleLineEntries(st.symbols) && Sprite.SingleLine(markup) ==>
              SingleLineEntries(Ensure(st, id, markup).symbols)
  {
    if !Holds(st.symbols, id) {
      StoreKeepsEntries(st.symbols, id, markup, Ensure(st, id, markup).symbols);
    }
  }

  /** Assigning `markup` to `id` keeps every entry non-empty when `markup`
      is, and every entry a single line when `markup` is one. */
  lemma StoreKeepsEntries(t: Table, id: string, markup: string, t': Table)
    requires t'.entries == t.entries[id := markup]
    ensures Truthy(t) && markup != "" ==> Truthy(t')
    ensures SingleLineEntries(t) && Sprite.SingleLine(markup) ==> SingleLineEntries(t')
  {
    assert forall k :: k in t'.entries ==> t'.entries[k] == (if k == id then markup else t.entries[k]);
  }

  /** When the last write is in step with a table of single-line symbols,
      the sprite file lists exactly the stored symbols, in key order. */
  lemma SyncedFileLists(st: State)
    requires Valid(st.symbols) && Synced(st) && SingleLineEntries(st.symbols)
    requires |st.writes| > 0
    ensures Sprite.ParseDocument(st.writes[|st.writes| - 1]) == Some(Stored(st.symbols))
  {
    var stored := Stored(st.symbols);
    assert forall i :: 0 <= i < |stored| ==> Sprite.SingleLine(stored[i]);
    Sprite.DocumentRoundTrip(stored);
  }
}
