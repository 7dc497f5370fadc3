/**
 * The albums table of the album randomizer, as values: the row type, the
 * table as a map from the primary key to its row, and the effect of each
 * SQL statement the program runs on it, with the properties those
 * statements give the program.
 */
module Albums {
  import opened Strconv

  /** One row of the `albums` table. */
  datatype Album = Album(
    id: int,
    rank: int,
    title: string,
    band: string,
    country: string,
    year: int,
    timesListened: int,
    coverUrl: string)

  /** Go's zero value of Album. */
  const ZeroAlbum: Album := Album(0, 0, "", "", "", 0, 0, "")

  /** The table: each primary key to the row it identifies. */
  type Table = map<int, Album>

  /** The `id` column is the primary key: every row is stored under its own id. */
  ghost predicate Keyed(t: Table) {
    forall id :: id in t ==> t[id].id == id
  }

  /** No row has a negative listen count. */
  ghost predicate NonNegativeCounts(t: Table) {
    forall id :: id in t ==> t[id].timesListened >= 0
  }

  // ---------------------------------------------------------------------
  // Loading the CSV file
  // ---------------------------------------------------------------------

  /** Every record after the header has the five cells the loader reads (a shorter one makes it panic). */
  predicate WellFormedRows(rows: seq<seq<string>>) {
    forall i :: 1 <= i < |rows| ==> |rows[i]| >= 5
  }

  /** Record i is offered for insertion: it is not the header and has a title and a band. */
  predicate Offered(rows: seq<seq<string>>, i: int)
    requires WellFormedRows(rows)
  {
    1 <= i < |rows| && rows[i][1] != "" && rows[i][2] != ""
  }

  /** The row record i becomes: id i, never listened, no cover. */
  function AlbumOfRow(i: int, row: seq<string>): Album
    requires |row| >= 5
  {
    Album(i, Atoi(row[0]), row[1], row[2], row[3], Atoi(row[4]), 0, "")
  }

  /** The table after the first n records went through `INSERT OR IGNORE`, in file order. */
  function Loaded(t: Table, rows: seq<seq<string>>, n: nat): Table
    requires WellFormedRows(rows) && n <= |rows|
  {
    if n == 0 then t
    else
      var prev := Loaded(t, rows, n - 1);
      if Offered(rows, n - 1) && n - 1 !in prev then prev[n - 1 := AlbumOfRow(n - 1, rows[n - 1])]
      else prev
  }

  /** The table after the whole file was loaded. */
  function Load(t: Table, rows: seq<seq<string>>): Table
    requires WellFormedRows(rows)
  {
    Loaded(t, rows, |rows|)
  }

  /** Loading, key by key: existing rows stay, and each offered record fills its id if it was free. */
  lemma {:induction false} LoadedAt(t: Table, rows: seq<seq<string>>, n: nat, k: int)
    requires WellFormedRows(rows) && n <= |rows|
    ensures k in Loaded(t, rows, n) <==> k in t || (k < n && Offered(rows, k))
    ensures k in t ==> Loaded(t, rows, n)[k] == t[k]
    ensures k !in t && k < n && Offered(rows, k) ==> Loaded(t, rows, n)[k] == AlbumOfRow(k, rows[k])
  {
    if n > 0 {
      LoadedAt(t, rows, n - 1, k);
    }
  }

  /**
   * Loading adds a row only for a record that is not the header and has a
   * non-empty title and band; every such record whose id is free is added.
   */
  lemma LoadSkipsHeaderAndBlankRows(t: Table, rows: seq<seq<string>>, k: int)
    requires WellFormedRows(rows) && k !in t
    ensures k in Load(t, rows) <==> 1 <= k < |rows| && rows[k][1] != "" && rows[k][2] != ""
  {
    LoadedAt(t, rows, |rows|, k);
  }

  /** A row added by loading record k has id k, no listens, no cover, and the record's cells. */
  lemma LoadInitialValues(t: Table, rows: seq<seq<string>>, k: int)
    requires WellFormedRows(rows) && k !in t && k in Load(t, rows)
    ensures 1 <= k < |rows|
    ensures Load(t, rows)[k].id == k
    ensures Load(t, rows)[k].timesListened == 0 && Load(t, rows)[k].coverUrl == ""
    ensures Load(t, rows)[k].title == rows[k][1] && Load(t, rows)[k].band == rows[k][2]
    ensures Load(t, rows)[k].country == rows[k][3]
    ensures Load(t, rows)[k].rank == Atoi(rows[k][0]) && Load(t, rows)[k].year == Atoi(rows[k][4])
  {
    LoadedAt(t, rows, |rows|, k);
  }

  /** `INSERT OR IGNORE`: a row already in the table comes out of loading exactly as it went in. */
  lemma LoadKeepsExisting(t: Table, rows: seq<seq<string>>, k: int)
    requires WellFormedRows(rows) && k in t
    ensures k in Load(t, rows) && Load(t, rows)[k] == t[k]
  {
    LoadedAt(t, rows, |rows|, k);
  }

  /** Loading keeps the key invariant and the non-negative counts. */
  lemma LoadPreservesInvariants(t: Table, rows: seq<seq<string>>)
    requires WellFormedRows(rows)
    ensures Keyed(t) ==> Keyed(Load(t, rows))
    ensures NonNegativeCounts(t) ==> NonNegativeCounts(Load(t, rows))
  {
    forall k | k in Load(t, rows)
      ensures k in t ==> Load(t, rows)[k] == t[k]
      ensures k !in t ==> 1 <= k < |rows| && Load(t, rows)[k] == AlbumOfRow(k, rows[k])
    {
      LoadedAt(t, rows, |rows|, k);
    }
  }

  /**
   * Loading the same file again, as every start of the program does, changes
   * nothing: listen counts and covers gathered since survive the reload.
   */
  lemma ReloadKeepsTable(t: Table, rows: seq<seq<string>>)
    requires WellFormedRows(rows)
    ensures Load(Load(t, rows), rows) == Load(t, rows)
  {
    var once := Load(t, rows);
    forall k
      ensures k in Load(once, rows) <==> k in once
      ensures k in once ==> Load(once, rows)[k] == once[k]
    {
      LoadedAt(t, rows, |rows|, k);
      LoadedAt(once, rows, |rows|, k);
    }
  }

  // ---------------------------------------------------------------------
  // Listing
  // ---------------------------------------------------------------------

  /** `ORDER BY rank`: ranks never decrease along the listing. */
  ghost predicate SortedByRank(s: seq<Album>) {
    forall j, k :: 0 <= j < k < |s| ==> s[j].rank <= s[k].rank
  }

  ghost predicate DistinctIds(s: seq<Album>) {
    forall j, k :: 0 <= j < k < |s| ==> s[j].id != s[k].id
  }

  /** The listing holds the table's rows: each row once, and nothing else. */
  ghost predicate Lists(s: seq<Album>, t: Table) {
    && (forall j :: 0 <= j < |s| ==> s[j].id in t && t[s[j].id] == s[j])
    && (forall id :: id in t ==> t[id] in s)
    && DistinctIds(s)
  }

  function IdsOf(s: seq<Album>): set<int> {
    if s == [] then {} else {s[0].id} + IdsOf(s[1..])
  }

  lemma {:induction false} IdsOfDistinct(s: seq<Album>)
    requires DistinctIds(s)
    ensures |IdsOf(s)| == |s|
    ensures forall j :: 0 <= j < |s| ==> s[j].id in IdsOf(s)
    ensures forall id :: id in IdsOf(s) ==> exists j :: 0 <= j < |s| && s[j].id == id
  {
    if s != [] {
      IdsOfDistinct(s[1..]);
      forall j | 0 <= j < |s[1..]| ensures s[1..][j].id != s[0].id {
        assert s[1..][j] == s[j + 1];
      }
      forall id | id in IdsOf(s) ensures exists j :: 0 <= j < |s| && s[j].id == id {
        if id != s[0].id {
          var j :| 0 <= j < |s[1..]| && s[1..][j].id == id;
          assert s[j + 1].id == id;
        }
      }
      forall j | 0 <= j < |s| ensures s[j].id in IdsOf(s) {
        if j > 0 { assert s[j].id == s[1..][j - 1].id; }
      }
    }
  }

  /** A listing of a table has exactly as many albums as the table has rows. */
  lemma ListsLength(s: seq<Album>, t: Table)
    requires Keyed(t) && Lists(s, t)
    ensures |s| == |t|
  {
    IdsOfDistinct(s);
    forall id | id in t ensures id in IdsOf(s) {
      var j :| 0 <= j < |s| && s[j] == t[id];
    }
    forall id | id in IdsOf(s) ensures id in t {
      var j :| 0 <= j < |s| && s[j].id == id;
    }
    assert IdsOf(s) == t.Keys;
  }

  // ---------------------------------------------------------------------
  // Choosing an unlistened album
  // ---------------------------------------------------------------------

  /** The albums of a listing that were never listened to, in listing order. */
  function Unlistened(s: seq<Album>): seq<Album> {
    if s == [] then []
    else Unlistened(s[..|s| - 1]) + (if s[|s| - 1].timesListened == 0 then [s[|s| - 1]] else [])
  }

  /** An album is among the unlistened ones exactly when it is listed and has no listens. */
  lemma {:induction false} UnlistenedMembers(s: seq<Album>, x: Album)
    ensures x in Unlistened(s) <==> x in s && x.timesListened == 0
  {
    if s != [] {
      UnlistenedMembers(s[..|s| - 1], x);
      assert s == s[..|s| - 1] + [s[|s| - 1]];
    }
  }

  /** The ids of the rows with no listens. */
  function UnlistenedIds(t: Table): set<int> {
    set id | id in t && t[id].timesListened == 0
  }

  // ---------------------------------------------------------------------
  // Marking as listened and resetting
  // ---------------------------------------------------------------------

  /** `UPDATE albums SET times_listened = times_listened + 1 WHERE id = ?`. */
  function Marked(t: Table, id: int): Table {
    if id in t then t[id := t[id].(timesListened := t[id].timesListened + 1)] else t
  }

  /** `UPDATE albums SET times_listened = 0`. */
  function Reset(t: Table): Table {
    map id | id in t :: t[id].(timesListened := 0)
  }

  /**
   * Marking adds exactly one listen to the row with that id and changes
   * nothing else; an unknown id leaves the table as it is.
   */
  lemma MarkedChangesOneCount(t: Table, id: int)
    ensures Marked(t, id).Keys == t.Keys
    ensures id !in t ==> Marked(t, id) == t
    ensures forall k :: k in t ==>
      Marked(t, id)[k].timesListened == t[k].timesListened + (if k == id then 1 else 0)
    ensures forall k :: k in t ==>
      Marked(t, id)[k].(timesListened := 0) == t[k].(timesListened := 0)
  {
  }

  /** Once an album is marked it is no longer a candidate for the random pick, and no other album changes status. */
  lemma MarkRemovesFromUnlistened(t: Table, id: int)
    requires NonNegativeCounts(t)
    ensures UnlistenedIds(Marked(t, id)) == UnlistenedIds(t) - {id}
    ensures NonNegativeCounts(Marked(t, id))
  {
  }

  /** Resetting zeroes every listen count and changes no other field. */
  lemma ResetZeroesCounts(t: Table)
    ensures Reset(t).Keys == t.Keys
    ensures forall k :: k in t ==> Reset(t)[k].timesListened == 0
    ensures forall k :: k in t ==> Reset(t)[k].(timesListened := t[k].timesListened) == t[k]
  {
  }

  /** After a reset every album is a candidate for the random pick again. */
  lemma ResetMakesAllUnlistened(t: Table)
    ensures UnlistenedIds(Reset(t)) == t.Keys
  {
  }

  /** Resetting twice is resetting once. */
  lemma ResetIdempotent(t: Table)
    ensures Reset(Reset(t)) == Reset(t)
  {
  }

  /** A reset undoes any marking. */
  lemma ResetAfterMark(t: Table, id: int)
    ensures Reset(Marked(t, id)) == Reset(t)
  {
  }

  // ---------------------------------------------------------------------
  // Filling in missing covers
  // ---------------------------------------------------------------------

  /** One album through the cover loop: looked up only without a cover, updated only with a non-empty answer. */
  function WithCover(a: Album, lookup: (string, string) -> string): Album {
    if a.coverUrl != "" then a
    else
      var cover := lookup(a.title, a.band);
      if cover != "" then a.(coverUrl := cover) else a
  }

  /** The table after the cover loop visited every row. */
  function Enriched(t: Table, lookup: (string, string) -> string): Table {
    map id | id in t :: WithCover(t[id], lookup)
  }

  /**
   * The cover loop never touches an album that has a cover, writes only a
   * non-empty answer of the lookup, and changes no field but the cover.
   */
  lemma EnrichedChangesOnlyMissingCovers(t: Table, lookup: (string, string) -> string, k: int)
    requires k in t
    ensures k in Enriched(t, lookup)
    ensures t[k].coverUrl != "" ==> Enriched(t, lookup)[k] == t[k]
    ensures Enriched(t, lookup)[k] != t[k] ==>
      t[k].coverUrl == "" &&
      Enriched(t, lookup)[k].coverUrl == lookup(t[k].title, t[k].band) != "" &&
      Enriched(t, lookup)[k] == t[k].(coverUrl := Enriched(t, lookup)[k].coverUrl)
    ensures Enriched(t, lookup)[k].coverUrl == "" ==> Enriched(t, lookup)[k] == t[k]
  {
  }

  /**
   * A second pass of the cover loop, with a lookup that answers as it did
   * the first time, finds nothing left to do. The program itself makes no
   * such promise: each start retries every row without a cover against a
   * live service, which may answer differently.
   */
  lemma EnrichedIdempotent(t: Table, lookup: (string, string) -> string)
    ensures Enriched(Enriched(t, lookup), lookup) == Enriched(t, lookup)
  {
    var once := Enriched(t, lookup);
    forall k | k in once ensures WithCover(once[k], lookup) == once[k] {
      assert once[k].title == t[k].title && once[k].band == t[k].band;
    }
  }

  /** The cover loop and marking touch different columns, so their order does not matter. */
  lemma EnrichCommutesWithMark(t: Table, lookup: (string, string) -> string, id: int)
    ensures Enriched(Marked(t, id), lookup) == Marked(Enriched(t, lookup), id)
  {
  }
}
