/** The ad-setting views of the admin dashboard, and the model ordering of `AdSettings`. */
module AdViews {
  import opened Support
  import opened Models
  import opened Http
  import opened Tables
  import opened Crud
  import opened ActivityLogs

  const AdFormPage := "admindashboard/ads/form.html"
  const AdDeletePage := "admindashboard/ads/delete.html"
  const AdListRoute := "admindashboard:ad_list"
  const AdCreated := "Created ad setting"
  const AdUpdated := "Updated ad setting"
  const AdDeleted := "Deleted ad setting"

  /** The value stored in the `location` column for each choice. */
  function LocationCode(l: AdLocation): string
  {
    match l
    case AboveContent => "above_content"
    case BelowContent => "below_content"
    case SidebarTop => "sidebar_top"
    case SidebarBottom => "sidebar_bottom"
    case BetweenContent => "between_content"
  }

  /** The place of a location in the alphabetical order of the stored codes. */
  function LocationRank(l: AdLocation): (n: nat)
    ensures n < 5
  {
    match l
    case AboveContent => 0
    case BelowContent => 1
    case BetweenContent => 2
    case SidebarBottom => 3
    case SidebarTop => 4
  }

  /** Ordering by rank is ordering by the stored code, and distinct locations have distinct codes. */
  lemma LocationRankIsCodeOrder(a: AdLocation, b: AdLocation)
    ensures LocationRank(a) <= LocationRank(b) <==> LexLe(LocationCode(a), LocationCode(b))
    ensures LocationCode(a) == LocationCode(b) <==> a == b
  {
    if LocationRank(a) < LocationRank(b) {
      CodeBefore(a, b);
    } else if LocationRank(b) < LocationRank(a) {
      CodeBefore(b, a);
    } else {
      assert a == b;
      LexLeTotal(LocationCode(a), LocationCode(a));
    }
  }

  /** A location of lower rank has a code strictly before the other's. */
  lemma CodeBefore(a: AdLocation, b: AdLocation)
    requires LocationRank(a) < LocationRank(b)
    ensures LexLe(LocationCode(a), LocationCode(b)) && !LexLe(LocationCode(b), LocationCode(a))
  {
    var ca, cb := LocationCode(a), LocationCode(b);
    assert ca[0] == (if a == AboveContent then 'a' else if a == BelowContent || a == BetweenContent then 'b' else 's');
    assert cb[0] == (if b == AboveContent then 'a' else if b == BelowContent || b == BetweenContent then 'b' else 's');
    if a == BelowContent && b == BetweenContent {
      assert ca[..2] == cb[..2];
      LexLeDecided(ca, cb, 2);
    } else if a == SidebarBottom {
      assert ca[..8] == cb[..8];
      LexLeDecided(ca, cb, 8);
    } else {
      LexLeDecided(ca, cb, 0);
    }
  }

  /** Two strings that agree before `k` and differ at `k` compare as their `k`th characters do. */
  lemma {:induction false} LexLeDecided(a: string, b: string, k: nat)
    requires k < |a| && k < |b| && a[..k] == b[..k] && a[k] < b[k]
    ensures LexLe(a, b) && !LexLe(b, a)
    decreases k
  {
    if k > 0 {
      assert a[0] == a[..k][0] == b[..k][0] == b[0];
      assert a[1..][..k - 1] == a[..k][1..];
      assert b[1..][..k - 1] == b[..k][1..];
      LexLeDecided(a[1..], b[1..], k - 1);
    }
  }

  /** `ordering = ['location', '-created_at']`. */
  function AdOrder(): ((int, AdSetting), (int, AdSetting)) -> bool
  {
    ThenBy(ByKey((e: (int, AdSetting)) => LocationRank(e.1.data.location)),
           ByKey((e: (int, AdSetting)) => -e.1.createdAt))
  }

  lemma AdOrderIsTotalPreorder()
    ensures TotalPreorder(AdOrder())
  {
    ByKeyIsTotalPreorder((e: (int, AdSetting)) => LocationRank(e.1.data.location));
    ByKeyIsTotalPreorder((e: (int, AdSetting)) => -e.1.createdAt);
    ThenByIsTotalPreorder(ByKey((e: (int, AdSetting)) => LocationRank(e.1.data.location)),
                          ByKey((e: (int, AdSetting)) => -e.1.createdAt));
  }

  /** What `AdOrder` says about two ads in the order it puts them. */
  lemma AdOrderMeaning(a: (int, AdSetting), b: (int, AdSetting))
    requires AdOrder()(a, b)
    ensures LocationRank(a.1.data.location) <= LocationRank(b.1.data.location)
    ensures a.1.data.location == b.1.data.location ==> a.1.createdAt >= b.1.createdAt
  {
  }

  /**
    Every ad setting in model order: by location rank, which
    `LocationRankIsCodeOrder` shows is the order of the stored codes, and
    newest first within a location.
  */
  function AdsOrdered(rows: map<int, AdSetting>): (r: seq<(int, AdSetting)>)
    ensures ListsAll(r, rows)
    ensures forall i, j :: 0 <= i < j < |r| ==>
      && LocationRank(r[i].1.data.location) <= LocationRank(r[j].1.data.location)
      && (r[i].1.data.location == r[j].1.data.location ==> r[i].1.createdAt >= r[j].1.createdAt)
  {
    var le := AdOrder();
    AdOrderIsTotalPreorder();
    ListingSorted(rows, le);
    var r := Listing(rows, le);
    forall i, j | 0 <= i < j < |r|
      ensures LocationRank(r[i].1.data.location) <= LocationRank(r[j].1.data.location)
      ensures r[i].1.data.location == r[j].1.data.location ==> r[i].1.createdAt >= r[j].1.createdAt
    {
      assert le(r[i], r[j]);
      AdOrderMeaning(r[i], r[j]);
    }
    r
  }

  /** `ad_list`. */
  function AdList(req: Request, rows: map<int, AdSetting>): (r: Option<seq<(int, AdSetting)>>)
    ensures r.None? <==> req.actor.Anonymous?
    ensures r.Some? ==> r.value == AdsOrdered(rows)
  {
    if req.actor.Anonymous? then None else Some(AdsOrdered(rows))
  }

  /** An ad the page for `loc` may show: active and placed there. */
  predicate ShownAt(loc: AdLocation, e: (int, AdSetting))
  {
    e.1.data.location == loc && e.1.data.isActive
  }

  function Shown(loc: AdLocation): ((int, AdSetting)) -> bool
  {
    (e: (int, AdSetting)) => ShownAt(loc, e)
  }

  /**
    `AdSettings.objects.filter(location=loc, is_active=True).first()`: the
    first active ad for the location in model order, so one created no
    earlier than any other active ad there.
  */
  function FirstActive(rows: map<int, AdSetting>, loc: AdLocation): (r: Option<(int, AdSetting)>)
    ensures r.None? <==> forall k :: k in rows ==> !ShownAt(loc, (k, rows[k]))
    ensures r.Some? ==>
      && r.value.0 in rows && rows[r.value.0] == r.value.1 && ShownAt(loc, r.value)
      && forall k :: k in rows && ShownAt(loc, (k, rows[k])) ==> rows[k].createdAt <= r.value.1.createdAt
  {
    var all := AdsOrdered(rows);
    var f := FirstWhere(all, Shown(loc));
    if f.None? then
      FirstActiveNone(all, rows, loc);
      None
    else
      FirstActiveSome(all, rows, loc);
      Some(all[f.value])
  }

  /** No active ad at `loc` in a listing of the table: none in the table. */
  lemma FirstActiveNone(all: seq<(int, AdSetting)>, rows: map<int, AdSetting>, loc: AdLocation)
    requires ListsAll(all, rows)
    requires FirstWhere(all, Shown(loc)).None?
    ensures forall k :: k in rows ==> !ShownAt(loc, (k, rows[k]))
  {
    forall k | k in rows ensures !ShownAt(loc, (k, rows[k])) {
      NotShownInOrder(all, loc, (k, rows[k]));
    }
  }

  /** The first active ad at `loc` in a listing newest first within a location is the newest there. */
  lemma FirstActiveSome(all: seq<(int, AdSetting)>, rows: map<int, AdSetting>, loc: AdLocation)
    requires ListsAll(all, rows)
    requires forall i, j :: 0 <= i < j < |all| ==>
      (all[i].1.data.location == all[j].1.data.location ==> all[i].1.createdAt >= all[j].1.createdAt)
    requires FirstWhere(all, Shown(loc)).Some?
    ensures var n := FirstWhere(all, Shown(loc)).value;
      && n < |all| && all[n].0 in rows && rows[all[n].0] == all[n].1 && ShownAt(loc, all[n])
      && forall k :: k in rows && ShownAt(loc, (k, rows[k])) ==> rows[k].createdAt <= all[n].1.createdAt
  {
    var n := FirstWhere(all, Shown(loc)).value;
    assert all[n] in all;
    forall k | k in rows && ShownAt(loc, (k, rows[k]))
      ensures rows[k].createdAt <= all[n].1.createdAt
    {
      FirstShownNewest(all, loc, n, (k, rows[k]));
    }
  }

  /** When no position is shown at `loc`, no member is. */
  lemma NotShownInOrder(all: seq<(int, AdSetting)>, loc: AdLocation, x: (int, AdSetting))
    requires forall i :: 0 <= i < |all| ==> !ShownAt(loc, all[i])
    requires x in all
    ensures !ShownAt(loc, x)
  {
  }

  /** The first position shown at `loc` is at least as new as any member shown there. */
  lemma FirstShownNewest(all: seq<(int, AdSetting)>, loc: AdLocation, n: nat, x: (int, AdSetting))
    requires forall i, j :: 0 <= i < j < |all| ==>
      (all[i].1.data.location == all[j].1.data.location ==> all[i].1.createdAt >= all[j].1.createdAt)
    requires n < |all| && ShownAt(loc, all[n]) && forall i :: 0 <= i < n ==> !ShownAt(loc, all[i])
    requires x in all && ShownAt(loc, x)
    ensures x.1.createdAt <= all[n].1.createdAt
  {
    var j :| 0 <= j < |all| && all[j] == x;
    if j != n {
      assert n < j;
    }
  }

  function AdName(action: string): AdSetting -> string
  {
    (a: AdSetting) => action + ": " + a.data.name
  }

  /** `AdSettingsForm`, saved with the creator's profile. */
  function AdBuild(form: Option<AdData>, now: int): Option<int -> AdSetting>
  {
    if form.Some? then Some((user: int) => AdSetting(form.value, now, user)) else None
  }

  function AdApply(form: Option<AdData>): AdSetting -> Option<AdSetting>
  {
    (a: AdSetting) => if form.Some? then Some(a.(data := form.value)) else None
  }

  method AdCreate(ads: Table<AdSetting>, log: ActivityLog, req: Request, form: Option<AdData>, profiles: set<int>, now: int)
    returns (resp: Response)
    requires ads.Valid()
    modifies ads, log
    ensures ads.Valid()
    ensures var s := CreateStep(req, AdBuild(form, now), profiles, old(ads.rows), old(ads.nextPk), AdFormPage, AdListRoute);
      && Applied(resp, ads, s)
      && log.entries == old(log.entries) + Logged(req, s.saved, AdCreated, AdName(AdCreated), now)
  {
    var saved;
    resp, saved := Create(ads, req, AdBuild(form, now), profiles, AdFormPage, AdListRoute);
    if saved.Some? {
      log.LogActivity(req.actor.user, AdCreated, Some(AdCreated + ": " + saved.value.data.name), Some(req), now);
    }
  }

  method AdEdit(ads: Table<AdSetting>, log: ActivityLog, req: Request, pk: int, form: Option<AdData>, now: int)
    returns (resp: Response)
    requires ads.Valid()
    modifies ads, log
    ensures ads.Valid()
    ensures var s := EditStep(req, pk, AdApply(form), old(ads.rows), old(ads.nextPk), AdFormPage, AdListRoute);
      && Applied(resp, ads, s)
      && log.entries == old(log.entries) + Logged(req, s.saved, AdUpdated, AdName(AdUpdated), now)
  {
    var saved;
    resp, saved := Edit(ads, req, pk, AdApply(form), AdFormPage, AdListRoute);
    if saved.Some? {
      log.LogActivity(req.actor.user, AdUpdated, Some(AdUpdated + ": " + saved.value.data.name), Some(req), now);
    }
  }

  method AdDelete(ads: Table<AdSetting>, log: ActivityLog, req: Request, pk: int, now: int)
    returns (resp: Response)
    requires ads.Valid()
    modifies ads, log
    ensures ads.Valid()
    ensures var s := DeleteStep(req, pk, false, old(ads.rows), old(ads.nextPk), AdDeletePage, AdListRoute);
      && Applied(resp, ads, s)
      && log.entries == old(log.entries) + Logged(req, s.saved, AdDeleted, AdName(AdDeleted), now)
  {
    var removed;
    resp, removed := Delete(ads, req, pk, false, AdDeletePage, AdListRoute);
    if removed.Some? {
      log.LogActivity(req.actor.user, AdDeleted, Some(AdDeleted + ": " + removed.value.data.name), Some(req), now);
    }
  }

  /**
    A valid ad form from a user with a profile stores one ad by that user
    and logs `Created ad setting: <name>`; an invalid one stores and logs
    nothing.
  */
  lemma AdCreateRecorded(req: Request, form: Option<AdData>, profiles: set<int>, rows: map<int, AdSetting>,
                         nextPk: int, now: int)
    requires req.actor.Member? && req.verb == Post
    ensures var s := CreateStep(req, AdBuild(form, now), profiles, rows, nextPk, AdFormPage, AdListRoute);
      var log := Logged(req, s.saved, AdCreated, AdName(AdCreated), now);
      && (form.None? ==> s.rows == rows && log == [] && s.resp == Rendered(AdFormPage))
      && (form.Some? && req.actor.user in profiles ==>
            && s.rows == rows[nextPk := AdSetting(form.value, now, req.actor.user)]
            && log == [LogEntry(req.actor.user, AdCreated, Some("Created ad setting: " + form.value.name),
                                ClientIp(req.meta), now)])
  {
    assert AdCreated + ": " == "Created ad setting: ";
  }

  /** A valid edit keeps the ad's creation stamp and creator, so its place within its new location. */
  lemma AdEditKeepsOrigin(req: Request, pk: int, form: Option<AdData>, rows: map<int, AdSetting>, nextPk: int)
    requires req.actor.Member? && req.verb == Post && pk in rows && form.Some?
    ensures var s := EditStep(req, pk, AdApply(form), rows, nextPk, AdFormPage, AdListRoute);
      && s.rows[pk].createdAt == rows[pk].createdAt && s.rows[pk].createdBy == rows[pk].createdBy
      && s.rows[pk].data == form.value
  {
  }

  /**
    A POST delete removes only the ad and logs its name as it was; a GET
    shows the confirmation page and changes nothing.
  */
  lemma AdDeleteOnlyOnPost(req: Request, pk: int, rows: map<int, AdSetting>, nextPk: int, now: int)
    requires req.actor.Member? && pk in rows
    ensures var s := DeleteStep(req, pk, false, rows, nextPk, AdDeletePage, AdListRoute);
      var log := Logged(req, s.saved, AdDeleted, AdName(AdDeleted), now);
      && (req.verb == Post ==>
            && s.rows == rows - {pk}
            && log == [LogEntry(req.actor.user, AdDeleted, Some("Deleted ad setting: " + rows[pk].data.name),
                                ClientIp(req.meta), now)])
      && (req.verb == Get ==> s.rows == rows && log == [] && s.resp == Rendered(AdDeletePage))
  {
    assert AdDeleted + ": " == "Deleted ad setting: ";
  }
}
