/** The case file: the store's `Map` from component id to component, kept
    as its list of entries in insertion order, which is the order the source
    iterates, exports and saves it in. */
module CaseFiles {
  import opened Wrappers
  import opened ComponentModel

  datatype Entry = Entry(key: Id, comp: Component)

  type CaseFile = seq<Entry>

  function Keys(cf: CaseFile): (ks: seq<Id>)
    ensures |ks| == |cf| && forall i :: 0 <= i < |cf| ==> ks[i] == cf[i].key
  {
    if cf == [] then [] else [cf[0].key] + Keys(cf[1..])
  }

  function KeySet(cf: CaseFile): set<Id> {
    set e | e in cf :: e.key
  }

  lemma KeySetIsKeys(cf: CaseFile, k: Id)
    ensures k in KeySet(cf) <==> k in Keys(cf)
  {
    if k in Keys(cf) {
      var i :| 0 <= i < |cf| && Keys(cf)[i] == k;
      assert cf[i] in cf;
    }
  }

  /** `Array.from(caseFile.values())`. */
  function Values(cf: CaseFile): (vs: seq<Component>)
    ensures |vs| == |cf| && forall i :: 0 <= i < |cf| ==> vs[i] == cf[i].comp
  {
    if cf == [] then [] else [cf[0].comp] + Values(cf[1..])
  }

  /** A `Map` holds each key at most once. */
  predicate KeysUnique(cf: CaseFile) {
    forall i, j :: 0 <= i < j < |cf| ==> cf[i].key != cf[j].key
  }

  /** `caseFile.get(k)`. */
  function Get(cf: CaseFile, k: Id): (r: Option<Component>)
    ensures r.None? <==> k !in Keys(cf)
  {
    if cf == [] then None
    else if cf[0].key == k then Some(cf[0].comp)
    else Get(cf[1..], k)
  }

  /** With unique keys, the entry at position i is what `get` finds. */
  lemma GetAt(cf: CaseFile, i: int)
    requires KeysUnique(cf) && 0 <= i < |cf|
    ensures Get(cf, cf[i].key) == Some(cf[i].comp)
  {
    if i > 0 {
      GetAt(cf[1..], i - 1);
    }
  }

  /** `caseFile.set(k, c)`: an existing key keeps its place, a new key goes last. */
  function Put(cf: CaseFile, k: Id, c: Component): (r: CaseFile)
    ensures k !in Keys(cf) ==> r == cf + [Entry(k, c)]
  {
    if cf == [] then [Entry(k, c)]
    else if cf[0].key == k then [Entry(k, c)] + cf[1..]
    else [cf[0]] + Put(cf[1..], k, c)
  }

  /** After `set`, `get` finds the new component under its key and the old
      value under every other key. */
  lemma {:induction false} PutGet(cf: CaseFile, k: Id, c: Component)
    ensures Get(Put(cf, k, c), k) == Some(c)
    ensures forall k' :: k' != k ==> Get(Put(cf, k, c), k') == Get(cf, k')
  {
    if cf != [] {
      var r := Put(cf, k, c);
      if cf[0].key == k {
        assert r[1..] == cf[1..];
      } else {
        PutGet(cf[1..], k, c);
        assert r[1..] == Put(cf[1..], k, c);
      }
    }
  }

  /** Overwriting a present key changes neither the keys nor their order;
      a new key is appended. */
  lemma {:induction false} PutKeys(cf: CaseFile, k: Id, c: Component)
    ensures Keys(Put(cf, k, c)) == if k in Keys(cf) then Keys(cf) else Keys(cf) + [k]
  {
    if cf != [] && cf[0].key != k {
      PutKeys(cf[1..], k, c);
      assert Keys(cf) == [cf[0].key] + Keys(cf[1..]);
      assert Put(cf, k, c) == [cf[0]] + Put(cf[1..], k, c);
      assert Keys(Put(cf, k, c)) == [cf[0].key] + Keys(Put(cf[1..], k, c));
    } else if cf != [] {
      assert Keys(Put(cf, k, c)) == [k] + Keys(cf[1..]);
      assert Keys(cf) == [k] + Keys(cf[1..]);
    }
  }

  /** A `Map` stays a map under `set`. */
  lemma PutUnique(cf: CaseFile, k: Id, c: Component)
    requires KeysUnique(cf)
    ensures KeysUnique(Put(cf, k, c))
  {
    PutKeys(cf, k, c);
    var r := Put(cf, k, c);
    forall i, j | 0 <= i < j < |r| ensures r[i].key != r[j].key {
      assert Keys(r)[i] == r[i].key && Keys(r)[j] == r[j].key;
      if k !in Keys(cf) && j == |cf| {
        assert Keys(cf)[i] == cf[i].key;
      } else {
        assert Keys(cf)[i] == cf[i].key && Keys(cf)[j] == cf[j].key;
      }
    }
  }

  /** `caseFile.delete(k)`. */
  function Remove(cf: CaseFile, k: Id): (r: CaseFile)
    ensures k !in Keys(r)
    ensures forall k' :: k' != k ==> Get(r, k') == Get(cf, k')
    ensures forall e :: e in r <==> e in cf && e.key != k
    ensures KeysUnique(cf) ==> KeysUnique(r)
    ensures k !in Keys(cf) ==> r == cf
  {
    if cf == [] then []
    else if cf[0].key == k then Remove(cf[1..], k)
    else [cf[0]] + Remove(cf[1..], k)
  }

  /** `new Map(pairs)`: later pairs overwrite earlier ones with the same key. */
  function FromEntries(pairs: seq<Entry>): (r: CaseFile)
    ensures KeysUnique(r)
  {
    FromEntriesInto([], pairs)
  }

  function FromEntriesInto(acc: CaseFile, pairs: seq<Entry>): (r: CaseFile)
    requires KeysUnique(acc)
    ensures KeysUnique(r)
    decreases |pairs|
  {
    if pairs == [] then acc
    else
      PutUnique(acc, pairs[0].key, pairs[0].comp);
      FromEntriesInto(Put(acc, pairs[0].key, pairs[0].comp), pairs[1..])
  }

  /** Saving `Array.from(caseFile.entries())` and building a `Map` from the
      list again gives back the same case file, in the same order. */
  lemma EntriesRoundTrip(cf: CaseFile)
    requires KeysUnique(cf)
    ensures FromEntries(cf) == cf
  {
    assert cf[..0] == [] && cf[0..] == cf;
    EntriesFrom(cf, 0);
  }

  lemma UniquePrefix(cf: CaseFile, n: nat)
    requires KeysUnique(cf) && n <= |cf|
    ensures KeysUnique(cf[..n])
  {
    forall i, j | 0 <= i < j < n ensures cf[..n][i].key != cf[..n][j].key {
      assert cf[..n][i] == cf[i] && cf[..n][j] == cf[j];
    }
  }

  /** Entry n has a key the first n entries lack, so `set` appends it. */
  lemma FoldStep(cf: CaseFile, n: nat)
    requires KeysUnique(cf) && n < |cf|
    ensures KeysUnique(cf[..n]) && KeysUnique(cf[..n + 1])
    ensures FromEntriesInto(cf[..n], cf[n..]) == FromEntriesInto(cf[..n + 1], cf[n + 1..])
  {
    UniquePrefix(cf, n);
    UniquePrefix(cf, n + 1);
    var e := cf[n];
    forall i | 0 <= i < n ensures Keys(cf[..n])[i] != e.key {
      assert cf[..n][i] == cf[i];
    }
    assert Put(cf[..n], e.key, e.comp) == cf[..n + 1];
    assert cf[n..][0] == e && cf[n..][1..] == cf[n + 1..];
  }

  /** Folding the entries from position n on into the first n entries. */
  lemma {:induction false} EntriesFrom(cf: CaseFile, n: nat)
    requires KeysUnique(cf) && n <= |cf|
    ensures KeysUnique(cf[..n]) && FromEntriesInto(cf[..n], cf[n..]) == cf
    decreases |cf| - n
  {
    if n == |cf| {
      UniquePrefix(cf, n);
      assert cf[..n] == cf && cf[n..] == [];
    } else {
      FoldStep(cf, n);
      EntriesFrom(cf, n + 1);
    }
  }
}
