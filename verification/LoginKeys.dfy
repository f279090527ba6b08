/**
 Login keys (auth.py): a keyed digest of the key locates the row; rows from
 before the digest column are scanned and get their digest on a successful login.
 The participant table and the teacher table are handled by the same steps.
 */
module LoginKeys {
  import opened Tables
  import opened Text

  /** `key` is the login key the stored password hash was made from; `lookup` is "" for NULL or an empty column. */
  datatype KeyRow = KeyRow(id: nat, active: bool, key: string, lookup: string)

  /** The lookup digest: never empty, and different for different keys. */
  ghost predicate Digest(h: string -> string) {
    && (forall k :: h(k) != "")
    && (forall j, k :: h(j) == h(k) ==> j == k)
  }

  /** The first row a query without ORDER BY yields. */
  function First(rows: seq<KeyRow>, p: KeyRow -> bool): (r: Option<KeyRow>)
    ensures r.Some? ==> r.value in rows && p(r.value)
    ensures r.None? ==> forall row :: row in rows ==> !p(row)
  {
    if rows == [] then None else if p(rows[0]) then Some(rows[0]) else First(rows[1..], p)
  }

  predicate Unindexed(row: KeyRow) { row.active && row.lookup == "" }

  /** SELECT of the active rows without a digest. */
  function SelectUnindexed(rows: seq<KeyRow>): (r: seq<KeyRow>)
    ensures forall row :: row in r <==> row in rows && Unindexed(row)
  {
    if rows == [] then []
    else (if Unindexed(rows[0]) then [rows[0]] else []) + SelectUnindexed(rows[1..])
  }

  /** UPDATE of the digest, guarded by the column still being empty. */
  function Backfill(rows: seq<KeyRow>, id: nat, lookup: string): (r: seq<KeyRow>)
    ensures |r| == |rows|
  {
    seq(|rows|, i requires 0 <= i < |rows| =>
      if rows[i].id == id && rows[i].lookup == "" then rows[i].(lookup := lookup) else rows[i])
  }

  datatype Login = Login(found: Option<KeyRow>, rows: seq<KeyRow>)

  /** verify_participant_login_key and verify_teacher_login_key. */
  function Verify(rows: seq<KeyRow>, h: string -> string, input: string): Login {
    var key := Strip(input);
    if key == "" || h(key) == "" then Login(None, rows)
    else
      var candidate := First(rows, (row: KeyRow) => row.active && row.lookup == h(key));
      if candidate.Some? then Login(if candidate.value.key == key then candidate else None, rows)
      else
        var legacy := First(SelectUnindexed(rows), (row: KeyRow) => row.key == key);
        if legacy.None? then Login(None, rows)
        else Login(legacy, Backfill(rows, legacy.value.id, h(key)))
  }

  /** The plain form: scan every active row. */
  function PlainScan(rows: seq<KeyRow>, input: string): Option<KeyRow> {
    var key := Strip(input);
    if key == "" then None else First(rows, (row: KeyRow) => row.active && row.key == key)
  }

  // ---------------------------------------------------------------- invariants

  predicate IdsDistinct(rows: seq<KeyRow>) {
    forall i, j :: 0 <= i < j < |rows| ==> rows[i].id != rows[j].id
  }

  predicate ActiveKeysDistinct(rows: seq<KeyRow>) {
    forall i, j :: 0 <= i < j < |rows| && rows[i].active && rows[j].active ==> rows[i].key != rows[j].key
  }

  /** Every stored digest is the digest of that row's key. */
  predicate LookupsSound(rows: seq<KeyRow>, h: string -> string) {
    forall i :: 0 <= i < |rows| && rows[i].lookup != "" ==> rows[i].lookup == h(rows[i].key)
  }

  // ---------------------------------------------------------------- one login

  /** No login changes a digest once stored, nor any other column, even when row ids repeat. */
  lemma VerifyKeepsDigests(rows: seq<KeyRow>, h: string -> string, input: string, i: nat)
    requires i < |rows|
    ensures var after := Verify(rows, h, input).rows;
            && |after| == |rows|
            && after[i].id == rows[i].id && after[i].active == rows[i].active && after[i].key == rows[i].key
            && (rows[i].lookup != "" ==> after[i] == rows[i])
  {
    hide First, SelectUnindexed, Strip;
  }

  /** A login succeeds exactly when a plain scan would, and only for a holder of the key; keys need not be distinct. */
  lemma SucceedsAsPlainScan(rows: seq<KeyRow>, h: string -> string, input: string)
    requires Digest(h) && LookupsSound(rows, h)
    ensures Verify(rows, h, input).found.Some? <==> PlainScan(rows, input).Some?
    ensures Verify(rows, h, input).found.Some? ==>
              var row := Verify(rows, h, input).found.value;
              row in rows && row.active && row.key == Strip(input)
  {
    var key := Strip(input);
    if key != "" {
      var plain := PlainScan(rows, input);
      var candidate := First(rows, (row: KeyRow) => row.active && row.lookup == h(key));
      if candidate.Some? {
        assert candidate.value.key == key;
      } else if plain.Some? && plain.value.lookup == "" {
        assert plain.value in SelectUnindexed(rows);
      }
    }
  }

  /** If the first row that passes a test also passes a stricter one, it is the first to pass that. */
  lemma {:induction false} FirstNarrows(rows: seq<KeyRow>, p: KeyRow -> bool, q: KeyRow -> bool)
    requires forall row :: q(row) ==> p(row)
    requires First(rows, p).Some? && q(First(rows, p).value)
    ensures First(rows, q) == First(rows, p)
  {
    if !p(rows[0]) { FirstNarrows(rows[1..], p, q); }
  }

  /** Selecting the rows without a digest first keeps their order. */
  lemma {:induction false} FirstOfSelected(rows: seq<KeyRow>, key: string)
    ensures First(SelectUnindexed(rows), (row: KeyRow) => row.key == key) ==
            First(rows, (row: KeyRow) => Unindexed(row) && row.key == key)
  {
    if rows != [] {
      FirstOfSelected(rows[1..], key);
      if Unindexed(rows[0]) { assert SelectUnindexed(rows)[1..] == SelectUnindexed(rows[1..]); }
      else { assert SelectUnindexed(rows) == SelectUnindexed(rows[1..]); }
    }
  }

  /**
   Which row: the plain scan's if and only if that one has its digest, or no active
   row with the key has. Holders with a digest go first.
   */
  lemma SameRowExactly(rows: seq<KeyRow>, h: string -> string, input: string)
    requires Digest(h) && LookupsSound(rows, h)
    ensures Verify(rows, h, input).found == PlainScan(rows, input) <==>
            || PlainScan(rows, input).None?
            || PlainScan(rows, input).value.lookup != ""
            || forall row :: row in rows && row.active && row.key == Strip(input) ==> row.lookup == ""
  {
    var key, plain := Strip(input), PlainScan(rows, input);
    SucceedsAsPlainScan(rows, h, input);
    if plain.Some? {
      var holds := (row: KeyRow) => row.active && row.key == key;
      var candidate := First(rows, (row: KeyRow) => row.active && row.lookup == h(key));
      assert plain == First(rows, holds) by { FirstSame(rows, holds, (row: KeyRow) => row.active && row.key == key); }
      if plain.value.lookup != "" {
        var indexed := (row: KeyRow) => row.active && row.key == key && row.lookup == h(key);
        FirstNarrows(rows, holds, indexed);
        FirstSame(rows, indexed, (row: KeyRow) => row.active && row.lookup == h(key));
      } else if candidate.None? {
        var unindexed := (row: KeyRow) => Unindexed(row) && row.key == key;
        FirstNarrows(rows, holds, unindexed);
        FirstOfSelected(rows, key);
        FirstSame(rows, unindexed, (row: KeyRow) => Unindexed(row) && row.key == key);
      }
    }
  }

  /** Tests that agree on the table's rows find the same row. */
  lemma {:induction false} FirstSame(rows: seq<KeyRow>, p: KeyRow -> bool, q: KeyRow -> bool)
    requires forall row :: row in rows ==> p(row) == q(row)
    ensures First(rows, p) == First(rows, q)
  {
    if rows != [] { FirstSame(rows[1..], p, q); }
  }

  /** With distinct active keys it is the same row. */
  lemma SameRowAsPlainScan(rows: seq<KeyRow>, h: string -> string, input: string)
    requires Digest(h) && LookupsSound(rows, h) && ActiveKeysDistinct(rows)
    ensures Verify(rows, h, input).found == PlainScan(rows, input)
  {
    SucceedsAsPlainScan(rows, h, input);
  }

  /** The table with the digest filled in on active rows whose key is in `keys`. */
  function Filled(rows: seq<KeyRow>, h: string -> string, keys: set<string>): (r: seq<KeyRow>)
    ensures |r| == |rows|
  {
    seq(|rows|, i requires 0 <= i < |rows| =>
      if Unindexed(rows[i]) && rows[i].key in keys then rows[i].(lookup := h(rows[i].key)) else rows[i])
  }

  function KeyOf(input: string): set<string> {
    if Strip(input) == "" then {} else {Strip(input)}
  }

  /** With distinct ids, a backfill changes the one row it names. */
  lemma BackfillAt(rows: seq<KeyRow>, k: nat, lookup: string)
    requires IdsDistinct(rows) && k < |rows| && Unindexed(rows[k])
    ensures Backfill(rows, rows[k].id, lookup) == rows[k := rows[k].(lookup := lookup)]
  {}

  /** With distinct active keys, so does filling in one key. */
  lemma FilledAt(rows: seq<KeyRow>, h: string -> string, k: nat)
    requires ActiveKeysDistinct(rows) && k < |rows| && Unindexed(rows[k])
    ensures Filled(rows, h, {rows[k].key}) == rows[k := rows[k].(lookup := h(rows[k].key))]
  {}

  /** A login fills in the digest of the row it matched and writes nothing else. */
  lemma VerifyFills(rows: seq<KeyRow>, h: string -> string, input: string)
    requires Digest(h) && LookupsSound(rows, h) && ActiveKeysDistinct(rows) && IdsDistinct(rows)
    ensures Verify(rows, h, input).rows == Filled(rows, h, KeyOf(input))
  {
    var key, found := Strip(input), Verify(rows, h, input).found;
    SucceedsAsPlainScan(rows, h, input);
    if found.Some? && found.value.lookup == "" {
      var k :| 0 <= k < |rows| && rows[k] == found.value;
      BackfillAt(rows, k, h(key));
      FilledAt(rows, h, k);
    } else {
      forall i | 0 <= i < |rows|
        ensures !Unindexed(rows[i]) || rows[i].key !in KeyOf(input)
      {
        assert rows[i] in rows;
      }
      assert Filled(rows, h, KeyOf(input)) == rows;
    }
  }

  // ---------------------------------------------------------------- runs of logins

  /** The table after a run of logins. */
  function VerifyAll(rows: seq<KeyRow>, h: string -> string, inputs: seq<string>): seq<KeyRow> {
    if inputs == [] then rows
    else Verify(VerifyAll(rows, h, inputs[..|inputs| - 1]), h, inputs[|inputs| - 1]).rows
  }

  function Keys(inputs: seq<string>): set<string> {
    if inputs == [] then {} else Keys(inputs[..|inputs| - 1]) + KeyOf(inputs[|inputs| - 1])
  }

  lemma FilledTwice(rows: seq<KeyRow>, h: string -> string, first: set<string>, second: set<string>)
    requires Digest(h)
    ensures Filled(Filled(rows, h, first), h, second) == Filled(rows, h, first + second)
  {}

  lemma FilledKeepsSound(rows: seq<KeyRow>, h: string -> string, keys: set<string>)
    requires Digest(h) && LookupsSound(rows, h) && ActiveKeysDistinct(rows) && IdsDistinct(rows)
    ensures var r := Filled(rows, h, keys); LookupsSound(r, h) && ActiveKeysDistinct(r) && IdsDistinct(r)
  {}

  /** The id of a found row. */
  function IdOf(found: Option<KeyRow>): Option<nat> { if found.Some? then Some(found.value.id) else None }

  lemma {:induction false} PlainScanIgnoresDigests(rows: seq<KeyRow>, h: string -> string, keys: set<string>,
      input: string)
    ensures IdOf(PlainScan(Filled(rows, h, keys), input)) == IdOf(PlainScan(rows, input))
  {
    if rows != [] {
      PlainScanIgnoresDigests(rows[1..], h, keys, input);
      assert Filled(rows, h, keys)[1..] == Filled(rows[1..], h, keys);
    }
  }

  /** One more login on a partly filled table. */
  lemma VerifyAfterFilled(rows: seq<KeyRow>, h: string -> string, keys: set<string>, input: string)
    requires Digest(h) && LookupsSound(rows, h) && ActiveKeysDistinct(rows) && IdsDistinct(rows)
    ensures IdOf(Verify(Filled(rows, h, keys), h, input).found) == IdOf(PlainScan(rows, input))
    ensures Verify(Filled(rows, h, keys), h, input).rows == Filled(rows, h, keys + KeyOf(input))
  {
    FilledKeepsSound(rows, h, keys);
    SameRowAsPlainScan(Filled(rows, h, keys), h, input);
    PlainScanIgnoresDigests(rows, h, keys, input);
    VerifyFills(Filled(rows, h, keys), h, input);
    FilledTwice(rows, h, keys, KeyOf(input));
  }

  /** The table after a run is the initial one with the digests of the keys used filled in, whatever their order. */
  lemma {:induction false} RunFills(rows: seq<KeyRow>, h: string -> string, inputs: seq<string>)
    requires Digest(h) && LookupsSound(rows, h) && ActiveKeysDistinct(rows) && IdsDistinct(rows)
    ensures VerifyAll(rows, h, inputs) == Filled(rows, h, Keys(inputs))
  {
    if inputs != [] {
      var init := inputs[..|inputs| - 1];
      RunFills(rows, h, init);
      VerifyAfterFilled(rows, h, Keys(init), inputs[|inputs| - 1]);
    } else {
      assert Filled(rows, h, {}) == rows;
    }
  }

  /** Whatever logins came before, the next one finds the row a plain scan of the initial table finds. */
  lemma RunAgreesWithPlainScan(rows: seq<KeyRow>, h: string -> string, inputs: seq<string>, next: string)
    requires Digest(h) && LookupsSound(rows, h) && ActiveKeysDistinct(rows) && IdsDistinct(rows)
    ensures IdOf(Verify(VerifyAll(rows, h, inputs), h, next).found) == IdOf(PlainScan(rows, next))
  {
    RunFills(rows, h, inputs);
    VerifyAfterFilled(rows, h, Keys(inputs), next);
  }

  /** The rows still to be scanned only become fewer: a run removes exactly those whose key was used. */
  lemma ScanShrinks(rows: seq<KeyRow>, h: string -> string, inputs: seq<string>, i: nat)
    requires Digest(h) && LookupsSound(rows, h) && ActiveKeysDistinct(rows) && IdsDistinct(rows)
    requires i < |rows|
    ensures |VerifyAll(rows, h, inputs)| == |rows|
    ensures LookupsSound(VerifyAll(rows, h, inputs), h)
    ensures Unindexed(VerifyAll(rows, h, inputs)[i]) <==> Unindexed(rows[i]) && rows[i].key !in Keys(inputs)
  {
    RunFills(rows, h, inputs);
    FilledKeepsSound(rows, h, Keys(inputs));
  }

  // ---------------------------------------------------------------- where it goes wrong

  /**
   Two active rows with one key, of which only the second has its digest: the scan
   takes the first, the lookup the second.
   */
  lemma SharedKeyPicksOther(h: string -> string, key: string)
    requires Digest(h) && key != "" && Strip(key) == key
    ensures var legacy := KeyRow(1, true, key, "");
            var indexed := KeyRow(2, true, key, h(key));
            && LookupsSound([legacy, indexed], h)
            && PlainScan([legacy, indexed], key) == Some(legacy)
            && Verify([legacy, indexed], h, key) == Login(Some(indexed), [legacy, indexed])
  {
    var rows := [KeyRow(1, true, key, ""), KeyRow(2, true, key, h(key))];
    assert rows[1..] == [rows[1]];
    assert rows[0] in rows && rows[1] in rows;
    SucceedsAsPlainScan(rows, h, key);
    var candidate := First(rows, (row: KeyRow) => row.active && row.lookup == h(key));
    assert candidate != Some(rows[0]);
  }

  // ---------------------------------------------------------------- the code

  class KeyTable {
    var rows: seq<KeyRow>

    constructor (initial: seq<KeyRow>)
      ensures rows == initial
    {
      rows := initial;
    }

    method BackfillKeyLookup(id: nat, lookup: string)
      modifies this
      ensures rows == if lookup == "" then old(rows) else Backfill(old(rows), id, lookup)
    {
      if lookup == "" { return; }
      rows := Backfill(rows, id, lookup);
    }

    method VerifyLoginKey(h: string -> string, input: string) returns (found: Option<KeyRow>)
      modifies this
      ensures Login(found, rows) == Verify(old(rows), h, input)
    {
      var key := Strip(input);
      var lookup := h(key);
      if key == "" || lookup == "" { return None; }
      var candidate := First(rows, (row: KeyRow) => row.active && row.lookup == lookup);
      if candidate.Some? {
        return if candidate.value.key == key then candidate else None;
      }
      var unindexed := SelectUnindexed(rows);
      var i := 0;
      while i < |unindexed|
        invariant 0 <= i <= |unindexed|
        invariant rows == old(rows)
        invariant First(unindexed, (row: KeyRow) => row.key == key) ==
            First(unindexed[i..], (row: KeyRow) => row.key == key)
      {
        if unindexed[i].key == key {
          BackfillKeyLookup(unindexed[i].id, lookup);
          return Some(unindexed[i]);
        }
        assert unindexed[i..][1..] == unindexed[i + 1..];
        i := i + 1;
      }
      return None;
    }
  }
}
