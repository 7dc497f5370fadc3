/**
 * The program's shared albums table and the functions that query and change
 * it. The SQLite table is a map field that every statement reassigns; the
 * loops of the program (over CSV records, over query results, over the
 * listing) are loops here too.
 */
module AlbumStore {
  import opened Wrappers
  import opened Strconv
  import opened Albums
  import opened CoverQuery

  /**
   * Inserts `a` into a listing sorted by rank, after every album of rank at
   * most its own; `p` is where it lands.
   */
  method InsertByRank(s: seq<Album>, a: Album) returns (r: seq<Album>, p: nat)
    requires SortedByRank(s)
    ensures p <= |s| && r == s[..p] + [a] + s[p..]
    ensures SortedByRank(r)
  {
    p := 0;
    while p < |s| && s[p].rank <= a.rank
      invariant p <= |s|
      invariant forall j :: 0 <= j < p ==> s[j].rank <= a.rank
    {
      p := p + 1;
    }
    r := s[..p] + [a] + s[p..];
    assert forall j :: p <= j < |s| ==> a.rank < s[j].rank;
    assert forall j :: 0 <= j < |r| ==> r[j] == if j < p then s[j] else if j == p then a else s[j - 1];
  }

  /** The listing loop's invariant: the rows of every id outside `rest`, each once, and nothing else. */
  ghost predicate ListedExcept(s: seq<Album>, t: Table, rest: set<int>) {
    && (forall j :: 0 <= j < |s| ==> s[j].id in t && t[s[j].id] == s[j] && s[j].id !in rest)
    && (forall id :: id in t && id !in rest ==> t[id] in s)
    && DistinctIds(s)
  }

  /** Inserting the row of one more id, wherever it lands, keeps the listing loop's invariant. */
  lemma InsertKeepsListed(s: seq<Album>, t: Table, rest: set<int>, key: int, p: nat)
    requires ListedExcept(s, t, rest) && Keyed(t)
    requires key in rest && key in t && p <= |s|
    ensures ListedExcept(s[..p] + [t[key]] + s[p..], t, rest - {key})
  {
    var r := s[..p] + [t[key]] + s[p..];
    assert forall j :: 0 <= j < |r| ==> r[j] == if j < p then s[j] else if j == p then t[key] else s[j - 1];
    forall x | x in s ensures x in r {
      var j :| 0 <= j < |s| && s[j] == x;
      assert r[if j < p then j else j + 1] == x;
    }
  }

  /** A table in which every listed row went through the cover step is the enriched table. */
  lemma ListedRowsEnriched(before: Table, after: Table, list: seq<Album>, lookup: (string, string) -> string)
    requires Keyed(before) && Lists(list, before) && after.Keys == before.Keys
    requires forall j :: 0 <= j < |list| ==> after[list[j].id] == WithCover(before[list[j].id], lookup)
    ensures after == Enriched(before, lookup)
  {
    forall id | id in after ensures after[id] == WithCover(before[id], lookup) {
      var j :| 0 <= j < |list| && list[j] == before[id];
    }
  }

  class AlbumTable {
    /** The rows of the `albums` table, by primary key. */
    var albums: Table

    ghost predicate Valid()
      reads this
    {
      Keyed(albums)
    }

    /** `CREATE TABLE IF NOT EXISTS` on a new database file: an empty table. */
    constructor ()
      ensures Valid() && albums == map[]
    {
      albums := map[];
    }

    /** `CREATE TABLE IF NOT EXISTS` on the file an earlier run left behind: its rows as they were. */
    constructor Open(stored: Table)
      requires Keyed(stored)
      ensures Valid() && albums == stored
    {
      albums := stored;
    }

    /**
     * Loads the CSV records: skips the header and any record without a
     * title or band, and inserts the rest under their record index with no
     * listens and no cover, unless that id is taken.
     */
    method LoadFromCsv(rows: seq<seq<string>>)
      requires Valid() && WellFormedRows(rows)
      modifies this
      ensures Valid() && albums == Load(old(albums), rows)
    {
      var i := 0;
      while i < |rows|
        invariant 0 <= i <= |rows|
        invariant albums == Loaded(old(albums), rows, i)
      {
        if i != 0 {
          var row := rows[i];
          var rank := Atoi(row[0]);
          var year := Atoi(row[4]);
          if row[1] != "" && row[2] != "" {
            if i !in albums {
              albums := albums[i := Album(i, rank, row[1], row[2], row[3], year, 0, "")];
            }
          }
        }
        i := i + 1;
      }
      LoadPreservesInvariants(old(albums), rows);
    }

    /** `SELECT … ORDER BY rank`: every row once, ranks non-decreasing. */
    method All() returns (list: seq<Album>)
      requires Valid()
      ensures SortedByRank(list)
      ensures Lists(list, albums)
      ensures |list| == |albums|
    {
      list := [];
      var rest := albums.Keys;
      while exists k :: k in rest
        invariant rest <= albums.Keys
        invariant SortedByRank(list)
        invariant ListedExcept(list, albums, rest)
        decreases rest
      {
        var key :| key in rest;
        var next, p := InsertByRank(list, albums[key]);
        InsertKeepsListed(list, albums, rest, key, p);
        list := next;
        rest := rest - {key};
      }
      assert rest == {};
      ListsLength(list, albums);
    }

    /**
     * Picks an album nobody listened to, at any position among them, or
     * None when every album has been listened to.
     */
    method RandomUnlistened() returns (pick: Option<Album>)
      requires Valid()
      ensures pick.None? <==> UnlistenedIds(albums) == {}
      ensures pick.Some? ==>
        pick.value.id in UnlistenedIds(albums) && albums[pick.value.id] == pick.value
    {
      var list := All();
      var unlistened: seq<Album> := [];
      var i := 0;
      while i < |list|
        invariant 0 <= i <= |list|
        invariant unlistened == Unlistened(list[..i])
      {
        assert list[..i + 1][..i] == list[..i];
        if list[i].timesListened == 0 {
          unlistened := unlistened + [list[i]];
        }
        i := i + 1;
      }
      assert list[..i] == list;
      if |unlistened| == 0 {
        forall id | id in albums ensures albums[id].timesListened != 0 {
          UnlistenedMembers(list, albums[id]);
        }
        return None;
      }
      var idx :| 0 <= idx < |unlistened|;
      var chosen := unlistened[idx];
      UnlistenedMembers(list, chosen);
      var j :| 0 <= j < |list| && list[j] == chosen;
      assert chosen.id in UnlistenedIds(albums);
      pick := Some(chosen);
    }

    /**
     * Adds a listen to the album with this id and returns that row as it is
     * now; for an unknown id nothing changes and the zero album comes back.
     */
    method MarkListened(id: int) returns (a: Album)
      requires Valid()
      modifies this
      ensures Valid() && albums == Marked(old(albums), id)
      ensures a == if id in albums then albums[id] else ZeroAlbum
    {
      if id in albums {
        albums := albums[id := albums[id].(timesListened := albums[id].timesListened + 1)];
      }
      a := ZeroAlbum;
      if id in albums {
        a := albums[id];
      }
    }

    /** Sets every listen count back to 0. */
    method ResetAll()
      requires Valid()
      modifies this
      ensures Valid() && albums == Reset(old(albums))
    {
      albums := map id | id in albums :: albums[id].(timesListened := 0);
    }

    /**
     * The background cover loop: for each listed album without a cover, asks
     * the cover service (given as `search`) for the band and title as they
     * are, and stores a non-empty answer.
     */
    method FetchMissingCovers(search: string -> string)
      requires Valid()
      modifies this
      ensures Valid() && albums == Enriched(old(albums), CoverLookup(search))
    {
      ghost var lookup := CoverLookup(search);
      var list := All();
      var i := 0;
      while i < |list|
        invariant 0 <= i <= |list|
        invariant Valid() && albums.Keys == old(albums).Keys
        invariant forall j :: 0 <= j < i ==>
          albums[list[j].id] == WithCover(old(albums)[list[j].id], lookup)
        invariant forall j :: i <= j < |list| ==> albums[list[j].id] == old(albums)[list[j].id]
      {
        label Step:
        var a := list[i];
        assert albums[a.id] == old(albums)[a.id] == a;
        if a.coverUrl == "" {
          var cover := CoverFor(search, a.title, a.band);
          assert cover == search(Query(a.title, a.band)) == CoverLookup(search)(a.title, a.band);
          if cover != "" {
            if a.id in albums {
              albums := albums[a.id := albums[a.id].(coverUrl := cover)];
            }
          }
        }
        assert albums == old@Step(albums)[a.id := WithCover(a, lookup)];
        i := i + 1;
      }
      ListedRowsEnriched(old(albums), albums, list, lookup);
    }
  }
}
