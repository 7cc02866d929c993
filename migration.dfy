/**
  Data migration 0009: give every news row without a slug the first free
  candidate slug derived from its title. It runs on the historical `News`
  model, whose `save()` is the plain model save: only the slug changes.
  Unlike `News.save`, the existence check does not leave out the row being
  processed.
*/
module SlugMigration {
  import opened Support
  import opened Models
  import Slugs
  import opened Tables

  /** Processing row `k`: a slugless row takes the first candidate no row holds right now. */
  function MigrateRow(rows: map<int, News>, k: int, slugify: string -> string): (r: map<int, News>)
    requires k in rows
    ensures r.Keys == rows.Keys
  {
    var n := rows[k];
    if SlugEmpty(n.data.slug) then
      rows[k := n.(data := n.data.(slug := Some(Slugs.FirstFree(slugify(n.data.title), SlugsOf(rows, None)))))]
    else rows
  }

  /** Keys in the order `News.objects.all()` yields them: each stored row exactly once. */
  predicate IsOrder(rows: map<int, News>, order: seq<int>)
  {
    && (forall i, j :: 0 <= i < j < |order| ==> order[i] != order[j])
    && (forall i :: 0 <= i < |order| ==> order[i] in rows)
    && (forall k :: k in rows ==> k in order)
  }

  /** The table after the rows `order` lists have been processed one after the other. */
  function Migrated(rows: map<int, News>, order: seq<int>, slugify: string -> string): (r: map<int, News>)
    requires forall i :: 0 <= i < |order| ==> order[i] in rows
    ensures r.Keys == rows.Keys
    decreases |order|
  {
    if order == [] then rows
    else
      var before := Migrated(rows, order[..|order| - 1], slugify);
      MigrateRow(before, order[|order| - 1], slugify)
  }

  /**
    `generate_slugs`: the for loop over the table with the slug search
    inside it; every row is saved before the next one is looked at.
  */
  method GenerateSlugs(news: Table<News>, order: seq<int>, slugify: string -> string)
    requires news.Valid() && IsOrder(news.rows, order)
    modifies news
    ensures news.Valid() && news.nextPk == old(news.nextPk)
    ensures news.rows == Migrated(old(news.rows), order, slugify)
  {
    ghost var start := news.rows;
    var i := 0;
    while i < |order|
      invariant 0 <= i <= |order|
      invariant news.Valid() && news.nextPk == old(news.nextPk)
      invariant news.rows.Keys == start.Keys
      invariant news.rows == Migrated(start, order[..i], slugify)
    {
      MigratedSnoc(start, order, i, slugify);
      var k := order[i];
      var n := news.rows[k];
      if SlugEmpty(n.data.slug) {
        var slug := Slugs.FindFreeSlug(slugify(n.data.title), SlugsOf(news.rows, None));
        news.Update(k, n.(data := n.data.(slug := Some(slug))));
      }
      i := i + 1;
    }
    assert order[..|order|] == order;
  }

  /** Processing one key more is one more `MigrateRow`. */
  lemma MigratedSnoc(rows: map<int, News>, order: seq<int>, i: int, slugify: string -> string)
    requires forall j :: 0 <= j < |order| ==> order[j] in rows
    requires 0 <= i < |order|
    ensures Migrated(rows, order[..i + 1], slugify) ==
            MigrateRow(Migrated(rows, order[..i], slugify), order[i], slugify)
  {
    assert order[..i + 1][..i] == order[..i];
  }

  /** One step keeps every other row, and a filled slug is not looked at again. */
  lemma MigrateRowOnly(rows: map<int, News>, k: int, slugify: string -> string)
    requires k in rows
    ensures forall j :: j in rows && j != k ==> MigrateRow(rows, k, slugify)[j] == rows[j]
    ensures !SlugEmpty(rows[k].data.slug) ==> MigrateRow(rows, k, slugify)[k] == rows[k]
  {
  }

  /** The slug a step assigns is held by no row at that moment, not even the row itself. */
  lemma MigrateRowFresh(rows: map<int, News>, k: int, slugify: string -> string)
    requires k in rows && SlugEmpty(rows[k].data.slug)
    ensures var s := MigrateRow(rows, k, slugify)[k].data.slug;
      s.Some? && forall j :: j in rows ==> rows[j].data.slug != s
  {
    var s := MigrateRow(rows, k, slugify)[k].data.slug;
    forall j | j in rows ensures rows[j].data.slug != s {
      assert rows[j].data.slug.Some? ==> rows[j].data.slug.value in SlugsOf(rows, None);
    }
  }

  /** Each step keeps the slugs unique. */
  lemma MigrateRowUnique(rows: map<int, News>, k: int, slugify: string -> string)
    requires k in rows && UniqueSlugs(rows)
    ensures UniqueSlugs(MigrateRow(rows, k, slugify))
  {
    if SlugEmpty(rows[k].data.slug) {
      MigrateRowFresh(rows, k, slugify);
    }
  }

  /** The migration keeps the slugs unique, so the assigned slugs are pairwise distinct. */
  lemma {:induction false} MigratedUnique(rows: map<int, News>, order: seq<int>, slugify: string -> string)
    requires forall i :: 0 <= i < |order| ==> order[i] in rows
    requires UniqueSlugs(rows)
    ensures UniqueSlugs(Migrated(rows, order, slugify))
    decreases |order|
  {
    if order != [] {
      var init := order[..|order| - 1];
      MigratedUnique(rows, init, slugify);
      MigrateRowUnique(Migrated(rows, init, slugify), order[|order| - 1], slugify);
    }
  }

  /** A row that already had a slug is not modified. */
  lemma {:induction false} MigratedKeepsFilled(rows: map<int, News>, order: seq<int>, slugify: string -> string, k: int)
    requires forall i :: 0 <= i < |order| ==> order[i] in rows
    requires k in rows && !SlugEmpty(rows[k].data.slug)
    ensures Migrated(rows, order, slugify)[k] == rows[k]
    decreases |order|
  {
    if order != [] {
      var init := order[..|order| - 1];
      MigratedKeepsFilled(rows, init, slugify, k);
    }
  }

  /** Rows the order does not list are not modified. */
  lemma {:induction false} MigratedKeepsUnlisted(rows: map<int, News>, order: seq<int>, slugify: string -> string, k: int)
    requires forall i :: 0 <= i < |order| ==> order[i] in rows
    requires k in rows && k !in order
    ensures Migrated(rows, order, slugify)[k] == rows[k]
    decreases |order|
  {
    if order != [] {
      var init := order[..|order| - 1];
      assert forall i :: 0 <= i < |init| ==> init[i] == order[i];
      MigratedKeepsUnlisted(rows, init, slugify, k);
    }
  }

  /**
    When its turn comes, a slugless row gets the first of `base`, `base-1`,
    ... that no row holds at that moment, earlier assignments included.
  */
  lemma MigratedStep(rows: map<int, News>, order: seq<int>, slugify: string -> string, i: int)
    requires IsOrder(rows, order) && 0 <= i < |order|
    requires SlugEmpty(rows[order[i]].data.slug)
    ensures var before := Migrated(rows, order[..i], slugify);
      var after := Migrated(rows, order[..i + 1], slugify);
      var n := rows[order[i]];
      && before[order[i]] == n
      && after[order[i]] == n.(data := n.data.(slug := Some(Slugs.FirstFree(slugify(n.data.title), SlugsOf(before, None)))))
  {
    var prefix := order[..i + 1];
    assert prefix[..|prefix| - 1] == order[..i];
    assert forall j :: 0 <= j < i ==> order[..i][j] != order[i];
    MigratedKeepsUnlisted(rows, order[..i], slugify, order[i]);
  }

  /**
    Running the migration again leaves alone every row whose slug became
    non-empty in the first run.
  */
  lemma SecondRunKeepsFilled(rows: map<int, News>, order: seq<int>, slugify: string -> string, k: int)
    requires IsOrder(rows, order)
    requires k in rows
    requires !SlugEmpty(Migrated(rows, order, slugify)[k].data.slug)
    ensures var once := Migrated(rows, order, slugify);
      Migrated(once, order, slugify)[k] == once[k]
  {
    MigratedKeepsFilled(Migrated(rows, order, slugify), order, slugify, k);
  }

  /**
    The contrast with `News.save`: a row whose slug is the empty string and
    whose title slugifies to the empty string is its own obstacle here, so
    the migration gives it `-1`, while `News.save`, which leaves the row
    itself out of the check, keeps the empty slug.
  */
  lemma SelfNotExcluded(n: News, slugify: string -> string)
    requires n.data.slug == Some("") && slugify(n.data.title) == ""
    ensures MigrateRow(map[1 := n], 1, slugify)[1].data.slug == Some("-1")
    ensures Normalized(n, SlugsOf(map[1 := n], Some(1)), slugify).data.slug == Some("")
  {
    var rows := map[1 := n];
    assert SlugsOf(rows, None) == {""} by {
      assert "" in SlugsOf(rows, None);
    }
    assert Slugs.Candidate("", 0) in {""};
    assert Slugs.Candidate("", 1) == "-1" by {
      assert Slugs.NatToString(1) == "1";
    }
    Slugs.FirstFreeUnique("", {""}, 1);
    assert SlugsOf(rows, Some(1)) == {};
  }
}
