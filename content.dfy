/**
  The content views of the admin dashboard: news, events, gallery items,
  districts, initiatives and event categories. News, event and event
  category changes are written to the activity log; gallery, district and
  initiative changes are not.
*/
module ContentViews {
  import opened Support
  import opened Models
  import opened Http
  import opened Tables
  import opened Crud
  import opened ActivityLogs
  import opened AdminForms

  /** The details text of most log rows: the action, a colon and the row's name. */
  function Described(action: string, name: string): (s: string)
  {
    action + ": " + name
  }

  // ---------------------------------------------------------------------------
  // News
  // ---------------------------------------------------------------------------

  const NewsFormPage := "admindashboard/news/form.html"
  const NewsDeletePage := "admindashboard/news/delete.html"
  const NewsListRoute := "admindashboard:news_list"
  const NewsCreated := "Created news article"
  const NewsUpdated := "Updated news article"
  const NewsDeleted := "Deleted news article"

  function NewsTitle(action: string): News -> string
  {
    (n: News) => Described(action, n.data.title)
  }

  /** `news_list`: every article, newest `created_at` first. */
  function NewsList(req: Request, rows: map<int, News>): (r: Option<seq<(int, News)>>)
    ensures r.None? <==> req.actor.Anonymous?
    ensures r.Some? ==> ListsAll(r.value, rows)
    ensures r.Some? ==> forall i, j :: 0 <= i < j < |r.value| ==> r.value[i].1.createdAt >= r.value[j].1.createdAt
  {
    ListDescending(req, rows, (n: News) => n.createdAt)
  }

  /**
    The bound `NewsForm` of `news_create`: the submitted fields (`None` when
    field validation fails), cleaned and checked for a unique slug, then
    saved by `News.save` against every stored row; counters start at zero.
  */
  function NewsBuild(form: Option<NewsData>, rows: map<int, News>, now: int, slugify: string -> string): Option<int -> News>
  {
    if form.None? then None
    else match NewsFormClean(form.value, SlugsOf(rows, None), slugify)
      case None => None
      case Some(d) => Some((user: int) => Normalized(News(d, 0, 0, 0, now, user), SlugsOf(rows, None), slugify))
  }

  /** The bound `NewsForm` of `news_edit`: the other rows' slugs are the ones that count. */
  function NewsApply(form: Option<NewsData>, taken: set<string>, slugify: string -> string): News -> Option<News>
  {
    (n: News) =>
      if form.None? then None
      else match NewsFormClean(form.value, taken, slugify)
        case None => None
        case Some(d) => Some(Normalized(n.(data := d), taken, slugify))
  }

  method NewsCreate(news: Table<News>, log: ActivityLog, req: Request, form: Option<NewsData>,
                    profiles: set<int>, now: int, slugify: string -> string)
    returns (resp: Response)
    requires news.Valid()
    modifies news, log
    ensures news.Valid()
    ensures var s := CreateStep(req, NewsBuild(form, old(news.rows), now, slugify), profiles,
                                old(news.rows), old(news.nextPk), NewsFormPage, NewsListRoute);
      && Applied(resp, news, s)
      && log.entries == old(log.entries) + Logged(req, s.saved, NewsCreated, NewsTitle(NewsCreated), now)
  {
    if req.actor.Anonymous? {
      return LoginRedirect;
    }
    if req.verb != Post || form.None? {
      return Rendered(NewsFormPage);
    }
    var taken := SlugsOf(news.rows, None);
    var cleaned := NewsFormClean(form.value, taken, slugify);
    if cleaned.None? {
      return Rendered(NewsFormPage);
    }
    if req.actor.user !in profiles {
      return ServerError;
    }
    var n := PrepareSave(News(cleaned.value, 0, 0, 0, now, req.actor.user), taken, slugify);
    var _ := news.Insert(n);
    log.LogActivity(req.actor.user, NewsCreated, Some(Described(NewsCreated, n.data.title)), Some(req), now);
    resp := Redirect(NewsListRoute);
  }

  method NewsEdit(news: Table<News>, log: ActivityLog, req: Request, pk: int, form: Option<NewsData>,
                  now: int, slugify: string -> string)
    returns (resp: Response)
    requires news.Valid()
    modifies news, log
    ensures news.Valid()
    ensures var s := EditStep(req, pk, NewsApply(form, SlugsOf(old(news.rows), Some(pk)), slugify),
                              old(news.rows), old(news.nextPk), NewsFormPage, NewsListRoute);
      && Applied(resp, news, s)
      && log.entries == old(log.entries) + Logged(req, s.saved, NewsUpdated, NewsTitle(NewsUpdated), now)
  {
    if req.actor.Anonymous? {
      return LoginRedirect;
    }
    if pk !in news.rows {
      return NotFound;
    }
    if req.verb != Post || form.None? {
      return Rendered(NewsFormPage);
    }
    var taken := SlugsOf(news.rows, Some(pk));
    var cleaned := NewsFormClean(form.value, taken, slugify);
    if cleaned.None? {
      return Rendered(NewsFormPage);
    }
    var n := PrepareSave(news.rows[pk].(data := cleaned.value), taken, slugify);
    news.Update(pk, n);
    log.LogActivity(req.actor.user, NewsUpdated, Some(Described(NewsUpdated, n.data.title)), Some(req), now);
    resp := Redirect(NewsListRoute);
  }

  method NewsDelete(news: Table<News>, log: ActivityLog, req: Request, pk: int, now: int)
    returns (resp: Response)
    requires news.Valid()
    modifies news, log
    ensures news.Valid()
    ensures var s := DeleteStep(req, pk, false, old(news.rows), old(news.nextPk), NewsDeletePage, NewsListRoute);
      && Applied(resp, news, s)
      && log.entries == old(log.entries) + Logged(req, s.saved, NewsDeleted, NewsTitle(NewsDeleted), now)
  {
    var removed;
    resp, removed := Delete(news, req, pk, false, NewsDeletePage, NewsListRoute);
    if removed.Some? {
      log.LogActivity(req.actor.user, NewsDeleted, Some(Described(NewsDeleted, removed.value.data.title)), Some(req), now);
    }
  }

  /**
    A valid news form from a user with a profile adds one article at the
    next key, written by that user, with zero views and likes, and one log
    row naming its title; any other request adds nothing and logs nothing.
  */
  lemma NewsCreateRecorded(req: Request, form: Option<NewsData>, profiles: set<int>,
                           rows: map<int, News>, nextPk: int, now: int, slugify: string -> string)
    ensures var s := CreateStep(req, NewsBuild(form, rows, now, slugify), profiles, rows, nextPk, NewsFormPage, NewsListRoute);
      var log := Logged(req, s.saved, NewsCreated, NewsTitle(NewsCreated), now);
      && (s.saved.None? ==> s.rows == rows && log == [])
      && (s.saved.Some? ==>
            && form.Some? && s.rows.Keys == rows.Keys + {nextPk}
            && s.rows[nextPk].createdBy == req.actor.user && s.rows[nextPk].createdAt == now
            && s.rows[nextPk].viewsCount == 0 && s.rows[nextPk].likesCount == 0
            && s.rows[nextPk].data.title == form.value.title
            && log == [LogEntry(req.actor.user, NewsCreated, Some("Created news article: " + form.value.title),
                                ClientIp(req.meta), now)])
  {
    assert NewsCreated + ": " == "Created news article: ";
  }

  /** A row whose slug no other row holds can be written without breaking the unique constraint. */
  lemma WriteKeepsUnique(rows: map<int, News>, k: int, n: News)
    requires UniqueSlugs(rows)
    requires n.data.slug.Some? && n.data.slug.value !in SlugsOf(rows, Some(k))
    ensures UniqueSlugs(rows[k := n])
  {
    forall j | j in rows && j != k ensures rows[j].data.slug != n.data.slug {
      assert rows[j].data.slug.Some? ==> rows[j].data.slug.value in SlugsOf(rows, Some(k));
    }
  }

  /** The slug a form save stores is set and free among `taken`. */
  lemma FormSaveSlugFree(n: News, d: NewsData, taken: set<string>, slugify: string -> string)
    requires NewsFormClean(d, taken, slugify).Some?
    ensures var s := Normalized(n.(data := NewsFormClean(d, taken, slugify).value), taken, slugify).data.slug;
      s.Some? && s.value !in taken
  {
    var c := NewsFormClean(d, taken, slugify).value;
    if SlugEmpty(c.slug) {
      SaveFillsSlug(n.(data := c), taken, slugify);
    }
  }

  /** Creating and editing articles keeps the slugs unique. */
  lemma NewsWritesKeepSlugsUnique(req: Request, form: Option<NewsData>, profiles: set<int>, pk: int,
                                  rows: map<int, News>, nextPk: int, now: int, slugify: string -> string)
    requires UniqueSlugs(rows) && forall k :: k in rows ==> k < nextPk
    ensures UniqueSlugs(CreateStep(req, NewsBuild(form, rows, now, slugify), profiles, rows, nextPk,
                                   NewsFormPage, NewsListRoute).rows)
    ensures UniqueSlugs(EditStep(req, pk, NewsApply(form, SlugsOf(rows, Some(pk)), slugify), rows, nextPk,
                                 NewsFormPage, NewsListRoute).rows)
  {
    var c := CreateStep(req, NewsBuild(form, rows, now, slugify), profiles, rows, nextPk, NewsFormPage, NewsListRoute);
    if c.saved.Some? {
      var d := NewsFormClean(form.value, SlugsOf(rows, None), slugify);
      var proto := News(form.value, 0, 0, 0, now, req.actor.user);
      FormSaveSlugFree(proto, form.value, SlugsOf(rows, None), slugify);
      assert c.saved.value == Normalized(proto.(data := d.value), SlugsOf(rows, None), slugify);
      assert SlugsOf(rows, Some(nextPk)) == SlugsOf(rows, None);
      WriteKeepsUnique(rows, nextPk, c.saved.value);
    }
    var taken := SlugsOf(rows, Some(pk));
    var e := EditStep(req, pk, NewsApply(form, taken, slugify), rows, nextPk, NewsFormPage, NewsListRoute);
    if e.saved.Some? {
      FormSaveSlugFree(rows[pk], form.value, taken, slugify);
      WriteKeepsUnique(rows, pk, e.saved.value);
    }
  }

  // ---------------------------------------------------------------------------
  // Events
  // ---------------------------------------------------------------------------

  const EventFormPage := "admindashboard/event/form.html"
  const EventDeletePage := "admindashboard/event/delete.html"
  const EventListRoute := "admindashboard:event_list"
  const EventCreated := "Created event"
  const EventUpdated := "Updated event"
  const EventDeleted := "Deleted event"

  function EventName(action: string): Event -> string
  {
    (e: Event) => Described(action, e.data.name)
  }

  /** Every district and category an event names exists (both links are nullable). */
  predicate EventLinks(events: map<int, Event>, districts: set<int>, categories: set<int>)
  {
    forall k :: k in events ==>
      && (events[k].data.district.Some? ==> events[k].data.district.value in districts)
      && (events[k].data.category.Some? ==> events[k].data.category.value in categories)
  }

  /** `event_list`: every event, latest `event_start` first. */
  function EventList(req: Request, rows: map<int, Event>): (r: Option<seq<(int, Event)>>)
    ensures r.None? <==> req.actor.Anonymous?
    ensures r.Some? ==> ListsAll(r.value, rows)
    ensures r.Some? ==> forall i, j :: 0 <= i < j < |r.value| ==> r.value[i].1.data.start >= r.value[j].1.data.start
  {
    ListDescending(req, rows, (e: Event) => e.data.start)
  }

  function EventBuild(form: Option<EventData>, districts: set<int>, categories: set<int>): Option<int -> Event>
  {
    if form.Some? && EventFormValid(form.value, districts, categories) then Some((user: int) => Event(form.value, user))
    else None
  }

  function EventApply(form: Option<EventData>, districts: set<int>, categories: set<int>): Event -> Option<Event>
  {
    (e: Event) =>
      if form.Some? && EventFormValid(form.value, districts, categories) then Some(e.(data := form.value)) else None
  }

  method EventCreate(events: Table<Event>, log: ActivityLog, req: Request, form: Option<EventData>,
                     districts: set<int>, categories: set<int>, profiles: set<int>, now: int)
    returns (resp: Response)
    requires events.Valid()
    modifies events, log
    ensures events.Valid()
    ensures var s := CreateStep(req, EventBuild(form, districts, categories), profiles,
                                old(events.rows), old(events.nextPk), EventFormPage, EventListRoute);
      && Applied(resp, events, s)
      && log.entries == old(log.entries) + Logged(req, s.saved, EventCreated, EventName(EventCreated), now)
  {
    var saved;
    resp, saved := Create(events, req, EventBuild(form, districts, categories), profiles, EventFormPage, EventListRoute);
    if saved.Some? {
      log.LogActivity(req.actor.user, EventCreated, Some(Described(EventCreated, saved.value.data.name)), Some(req), now);
    }
  }

  method EventEdit(events: Table<Event>, log: ActivityLog, req: Request, pk: int, form: Option<EventData>,
                   districts: set<int>, categories: set<int>, now: int)
    returns (resp: Response)
    requires events.Valid()
    modifies events, log
    ensures events.Valid()
    ensures var s := EditStep(req, pk, EventApply(form, districts, categories),
                              old(events.rows), old(events.nextPk), EventFormPage, EventListRoute);
      && Applied(resp, events, s)
      && log.entries == old(log.entries) + Logged(req, s.saved, EventUpdated, EventName(EventUpdated), now)
  {
    var saved;
    resp, saved := Edit(events, req, pk, EventApply(form, districts, categories), EventFormPage, EventListRoute);
    if saved.Some? {
      log.LogActivity(req.actor.user, EventUpdated, Some(Described(EventUpdated, saved.value.data.name)), Some(req), now);
    }
  }

  method EventDelete(events: Table<Event>, log: ActivityLog, req: Request, pk: int, now: int)
    returns (resp: Response)
    requires events.Valid()
    modifies events, log
    ensures events.Valid()
    ensures var s := DeleteStep(req, pk, false, old(events.rows), old(events.nextPk), EventDeletePage, EventListRoute);
      && Applied(resp, events, s)
      && log.entries == old(log.entries) + Logged(req, s.saved, EventDeleted, EventName(EventDeleted), now)
  {
    var removed;
    resp, removed := Delete(events, req, pk, false, EventDeletePage, EventListRoute);
    if removed.Some? {
      log.LogActivity(req.actor.user, EventDeleted, Some(Described(EventDeleted, removed.value.data.name)), Some(req), now);
    }
  }

  /**
    An event form that names a missing district or category, or ends before
    it starts, is refused; the links of stored events stay valid through
    creates and edits.
  */
  lemma EventWritesKeepLinks(req: Request, form: Option<EventData>, pk: int, profiles: set<int>,
                             events: map<int, Event>, nextPk: int, districts: set<int>, categories: set<int>)
    requires EventLinks(events, districts, categories)
    ensures EventLinks(CreateStep(req, EventBuild(form, districts, categories), profiles, events, nextPk,
                                  EventFormPage, EventListRoute).rows, districts, categories)
    ensures EventLinks(EditStep(req, pk, EventApply(form, districts, categories), events, nextPk,
                                EventFormPage, EventListRoute).rows, districts, categories)
    ensures form.Some? && form.value.end.Some? && form.value.end.value < form.value.start ==>
      CreateStep(req, EventBuild(form, districts, categories), profiles, events, nextPk,
                 EventFormPage, EventListRoute).saved.None?
  {
  }

  // ---------------------------------------------------------------------------
  // Gallery (not logged)
  // ---------------------------------------------------------------------------

  const GalleryFormPage := "admindashboard/gallery/form.html"
  const GalleryDeletePage := "admindashboard/gallery/delete.html"
  const GalleryListRoute := "admindashboard:gallery_list"

  /** `gallery_list`: every item, newest first. */
  function GalleryList(req: Request, rows: map<int, Gallery>): (r: Option<seq<(int, Gallery)>>)
    ensures r.None? <==> req.actor.Anonymous?
    ensures r.Some? ==> ListsAll(r.value, rows)
    ensures r.Some? ==> forall i, j :: 0 <= i < j < |r.value| ==> r.value[i].1.createdAt >= r.value[j].1.createdAt
  {
    ListDescending(req, rows, (g: Gallery) => g.createdAt)
  }

  function GalleryBuild(form: Option<GalleryData>, now: int): Option<int -> Gallery>
  {
    if form.Some? then Some((user: int) => Gallery(form.value, now, user)) else None
  }

  function GalleryApply(form: Option<GalleryData>): Gallery -> Option<Gallery>
  {
    (g: Gallery) => if form.Some? then Some(g.(data := form.value)) else None
  }

  method GalleryCreate(gallery: Table<Gallery>, log: ActivityLog, req: Request, form: Option<GalleryData>,
                       profiles: set<int>, now: int)
    returns (resp: Response)
    requires gallery.Valid()
    modifies gallery
    ensures gallery.Valid()
    ensures Applied(resp, gallery, CreateStep(req, GalleryBuild(form, now), profiles, old(gallery.rows),
                                              old(gallery.nextPk), GalleryFormPage, GalleryListRoute))
    ensures log.entries == old(log.entries)
  {
    var saved;
    resp, saved := Create(gallery, req, GalleryBuild(form, now), profiles, GalleryFormPage, GalleryListRoute);
  }

  method GalleryEdit(gallery: Table<Gallery>, log: ActivityLog, req: Request, pk: int, form: Option<GalleryData>)
    returns (resp: Response)
    requires gallery.Valid()
    modifies gallery
    ensures gallery.Valid()
    ensures Applied(resp, gallery, EditStep(req, pk, GalleryApply(form), old(gallery.rows), old(gallery.nextPk),
                                            GalleryFormPage, GalleryListRoute))
    ensures log.entries == old(log.entries)
  {
    var saved;
    resp, saved := Edit(gallery, req, pk, GalleryApply(form), GalleryFormPage, GalleryListRoute);
  }

  method GalleryDelete(gallery: Table<Gallery>, log: ActivityLog, req: Request, pk: int)
    returns (resp: Response)
    requires gallery.Valid()
    modifies gallery
    ensures gallery.Valid()
    ensures Applied(resp, gallery, DeleteStep(req, pk, false, old(gallery.rows), old(gallery.nextPk),
                                              GalleryDeletePage, GalleryListRoute))
    ensures log.entries == old(log.entries)
  {
    var saved;
    resp, saved := Delete(gallery, req, pk, false, GalleryDeletePage, GalleryListRoute);
  }

  /** A gallery item keeps its creation time and creator through edits. */
  lemma GalleryEditKeepsOrigin(req: Request, pk: int, form: Option<GalleryData>, rows: map<int, Gallery>, nextPk: int)
    ensures var s := EditStep(req, pk, GalleryApply(form), rows, nextPk, GalleryFormPage, GalleryListRoute);
      s.saved.Some? ==>
        && s.rows[pk].createdAt == rows[pk].createdAt && s.rows[pk].createdBy == rows[pk].createdBy
        && s.rows[pk].data == form.value
  {
  }

  // ---------------------------------------------------------------------------
  // Districts (not logged; deleting one clears it from events)
  // ---------------------------------------------------------------------------

  const DistrictFormPage := "admindashboard/districts/form.html"
  const DistrictDeletePage := "admindashboard/districts/delete.html"
  const DistrictListRoute := "admindashboard:district_list"

  /** `district_list`: every district by name. */
  function DistrictList(req: Request, rows: map<int, District>): (r: Option<seq<(int, District)>>)
    ensures r.None? <==> req.actor.Anonymous?
    ensures r.Some? ==> ListsAll(r.value, rows)
    ensures r.Some? ==> forall i, j :: 0 <= i < j < |r.value| ==> LexLe(r.value[i].1.data.name, r.value[j].1.data.name)
  {
    ListAlphabetical(req, rows, (d: District) => d.data.name)
  }

  function DistrictBuild(form: Option<DistrictData>): Option<int -> District>
  {
    if form.Some? then Some((user: int) => District(form.value, user)) else None
  }

  function DistrictApply(form: Option<DistrictData>): District -> Option<District>
  {
    (d: District) => if form.Some? then Some(d.(data := form.value)) else None
  }

  /**
    `on_delete=SET_NULL` on `Event.district`: events that named district
    `pk` lose it; nothing else about any event changes.
  */
  function ClearDistrict(events: map<int, Event>, pk: int): (r: map<int, Event>)
    ensures r.Keys == events.Keys
    ensures forall k :: k in r ==> r[k].data.district != Some(pk)
    ensures forall k :: k in r && events[k].data.district != Some(pk) ==> r[k] == events[k]
    ensures forall k :: k in r ==> r[k] == events[k].(data := events[k].data.(district := r[k].data.district))
  {
    MapRows(events, (e: Event) => if e.data.district == Some(pk) then e.(data := e.data.(district := None)) else e)
  }

  method DistrictCreate(districts: Table<District>, log: ActivityLog, req: Request, form: Option<DistrictData>,
                        profiles: set<int>)
    returns (resp: Response)
    requires districts.Valid()
    modifies districts
    ensures districts.Valid()
    ensures Applied(resp, districts, CreateStep(req, DistrictBuild(form), profiles, old(districts.rows),
                                                old(districts.nextPk), DistrictFormPage, DistrictListRoute))
    ensures log.entries == old(log.entries)
  {
    var saved;
    resp, saved := Create(districts, req, DistrictBuild(form), profiles, DistrictFormPage, DistrictListRoute);
  }

  method DistrictEdit(districts: Table<District>, log: ActivityLog, req: Request, pk: int, form: Option<DistrictData>)
    returns (resp: Response)
    requires districts.Valid()
    modifies districts
    ensures districts.Valid()
    ensures Applied(resp, districts, EditStep(req, pk, DistrictApply(form), old(districts.rows),
                                              old(districts.nextPk), DistrictFormPage, DistrictListRoute))
    ensures log.entries == old(log.entries)
  {
    var saved;
    resp, saved := Edit(districts, req, pk, DistrictApply(form), DistrictFormPage, DistrictListRoute);
  }

  method DistrictDelete(districts: Table<District>, events: Table<Event>, log: ActivityLog, req: Request, pk: int)
    returns (resp: Response)
    requires districts.Valid() && events.Valid()
    modifies districts, events
    ensures districts.Valid() && events.Valid()
    ensures var s := DeleteStep(req, pk, false, old(districts.rows), old(districts.nextPk),
                                DistrictDeletePage, DistrictListRoute);
      && Applied(resp, districts, s)
      && events.rows == (if s.saved.Some? then ClearDistrict(old(events.rows), pk) else old(events.rows))
      && events.nextPk == old(events.nextPk)
    ensures log.entries == old(log.entries)
  {
    var removed;
    resp, removed := Delete(districts, req, pk, false, DistrictDeletePage, DistrictListRoute);
    if removed.Some? {
      events.Replace(ClearDistrict(events.rows, pk));
    }
  }

  /** Deleting a district keeps every event's links valid. */
  lemma DistrictDeleteKeepsLinks(events: map<int, Event>, districts: set<int>, categories: set<int>, pk: int)
    requires EventLinks(events, districts, categories)
    ensures EventLinks(ClearDistrict(events, pk), districts - {pk}, categories)
  {
  }

  // ---------------------------------------------------------------------------
  // Initiatives (not logged)
  // ---------------------------------------------------------------------------

  const InitiativeFormPage := "admindashboard/initiatives/form.html"
  const InitiativeDeletePage := "admindashboard/initiatives/delete.html"
  const InitiativeListRoute := "admindashboard:initiative_list"

  /** `initiative_list`: every initiative, most recently saved first. */
  function InitiativeList(req: Request, rows: map<int, Initiative>): (r: Option<seq<(int, Initiative)>>)
    ensures r.None? <==> req.actor.Anonymous?
    ensures r.Some? ==> ListsAll(r.value, rows)
    ensures r.Some? ==> forall i, j :: 0 <= i < j < |r.value| ==> r.value[i].1.updatedAt >= r.value[j].1.updatedAt
  {
    ListDescending(req, rows, (n: Initiative) => n.updatedAt)
  }

  function InitiativeBuild(form: Option<InitiativeData>, now: int): Option<int -> Initiative>
  {
    if form.Some? then Some((user: int) => Initiative(form.value, now, user)) else None
  }

  /** `updated_at` is `auto_now`: every save stamps it. */
  function InitiativeApply(form: Option<InitiativeData>, now: int): Initiative -> Option<Initiative>
  {
    (n: Initiative) => if form.Some? then Some(n.(data := form.value, updatedAt := now)) else None
  }

  method InitiativeCreate(initiatives: Table<Initiative>, log: ActivityLog, req: Request,
                          form: Option<InitiativeData>, profiles: set<int>, now: int)
    returns (resp: Response)
    requires initiatives.Valid()
    modifies initiatives
    ensures initiatives.Valid()
    ensures Applied(resp, initiatives, CreateStep(req, InitiativeBuild(form, now), profiles, old(initiatives.rows),
                                                  old(initiatives.nextPk), InitiativeFormPage, InitiativeListRoute))
    ensures log.entries == old(log.entries)
  {
    var saved;
    resp, saved := Create(initiatives, req, InitiativeBuild(form, now), profiles, InitiativeFormPage, InitiativeListRoute);
  }

  method InitiativeEdit(initiatives: Table<Initiative>, log: ActivityLog, req: Request, pk: int,
                        form: Option<InitiativeData>, now: int)
    returns (resp: Response)
    requires initiatives.Valid()
    modifies initiatives
    ensures initiatives.Valid()
    ensures Applied(resp, initiatives, EditStep(req, pk, InitiativeApply(form, now), old(initiatives.rows),
                                                old(initiatives.nextPk), InitiativeFormPage, InitiativeListRoute))
    ensures log.entries == old(log.entries)
  {
    var saved;
    resp, saved := Edit(initiatives, req, pk, InitiativeApply(form, now), InitiativeFormPage, InitiativeListRoute);
  }

  method InitiativeDelete(initiatives: Table<Initiative>, log: ActivityLog, req: Request, pk: int)
    returns (resp: Response)
    requires initiatives.Valid()
    modifies initiatives
    ensures initiatives.Valid()
    ensures Applied(resp, initiatives, DeleteStep(req, pk, false, old(initiatives.rows), old(initiatives.nextPk),
                                                  InitiativeDeletePage, InitiativeListRoute))
    ensures log.entries == old(log.entries)
  {
    var saved;
    resp, saved := Delete(initiatives, req, pk, false, InitiativeDeletePage, InitiativeListRoute);
  }

  /** An edited initiative moves to the head of the list: no row was saved later. */
  lemma InitiativeEditMovesFirst(req: Request, pk: int, form: Option<InitiativeData>, now: int,
                                 rows: map<int, Initiative>, nextPk: int)
    requires forall k :: k in rows ==> rows[k].updatedAt <= now
    ensures var s := EditStep(req, pk, InitiativeApply(form, now), rows, nextPk, InitiativeFormPage, InitiativeListRoute);
      s.saved.Some? ==> s.rows[pk].updatedAt == now && forall k :: k in s.rows ==> s.rows[k].updatedAt <= now
  {
  }

  // ---------------------------------------------------------------------------
  // Event categories (logged; deleting one clears it from events)
  // ---------------------------------------------------------------------------

  const CategoryFormPage := "admindashboard/event_category/form.html"
  const CategoryDeletePage := "admindashboard/event_category/delete.html"
  const CategoryListRoute := "admindashboard:event_category_list"
  const CategoryCreated := "Created event category"
  const CategoryUpdated := "Updated event category"
  const CategoryDeleted := "Deleted event category"

  function CategoryName(action: string): EventCategory -> string
  {
    (c: EventCategory) => Described(action, c.data.category)
  }

  /** `event_category_list`: every category by name. */
  function CategoryList(req: Request, rows: map<int, EventCategory>): (r: Option<seq<(int, EventCategory)>>)
    ensures r.None? <==> req.actor.Anonymous?
    ensures r.Some? ==> ListsAll(r.value, rows)
    ensures r.Some? ==> forall i, j :: 0 <= i < j < |r.value| ==>
      LexLe(r.value[i].1.data.category, r.value[j].1.data.category)
  {
    ListAlphabetical(req, rows, (c: EventCategory) => c.data.category)
  }

  function CategoryBuild(form: Option<CategoryData>): Option<int -> EventCategory>
  {
    if form.Some? then Some((user: int) => EventCategory(form.value, user)) else None
  }

  function CategoryApply(form: Option<CategoryData>): EventCategory -> Option<EventCategory>
  {
    (c: EventCategory) => if form.Some? then Some(c.(data := form.value)) else None
  }

  /** `on_delete=SET_NULL` on `Event.category`. */
  function ClearCategory(events: map<int, Event>, pk: int): (r: map<int, Event>)
    ensures r.Keys == events.Keys
    ensures forall k :: k in r ==> r[k].data.category != Some(pk)
    ensures forall k :: k in r && events[k].data.category != Some(pk) ==> r[k] == events[k]
    ensures forall k :: k in r ==> r[k] == events[k].(data := events[k].data.(category := r[k].data.category))
  {
    MapRows(events, (e: Event) => if e.data.category == Some(pk) then e.(data := e.data.(category := None)) else e)
  }

  method CategoryCreate(categories: Table<EventCategory>, log: ActivityLog, req: Request, form: Option<CategoryData>,
                        profiles: set<int>, now: int)
    returns (resp: Response)
    requires categories.Valid()
    modifies categories, log
    ensures categories.Valid()
    ensures var s := CreateStep(req, CategoryBuild(form), profiles, old(categories.rows), old(categories.nextPk),
                                CategoryFormPage, CategoryListRoute);
      && Applied(resp, categories, s)
      && log.entries == old(log.entries) + Logged(req, s.saved, CategoryCreated, CategoryName(CategoryCreated), now)
  {
    var saved;
    resp, saved := Create(categories, req, CategoryBuild(form), profiles, CategoryFormPage, CategoryListRoute);
    if saved.Some? {
      log.LogActivity(req.actor.user, CategoryCreated, Some(Described(CategoryCreated, saved.value.data.category)),
                      Some(req), now);
    }
  }

  method CategoryEdit(categories: Table<EventCategory>, log: ActivityLog, req: Request, pk: int,
                      form: Option<CategoryData>, now: int)
    returns (resp: Response)
    requires categories.Valid()
    modifies categories, log
    ensures categories.Valid()
    ensures var s := EditStep(req, pk, CategoryApply(form), old(categories.rows), old(categories.nextPk),
                              CategoryFormPage, CategoryListRoute);
      && Applied(resp, categories, s)
      && log.entries == old(log.entries) + Logged(req, s.saved, CategoryUpdated, CategoryName(CategoryUpdated), now)
  {
    var saved;
    resp, saved := Edit(categories, req, pk, CategoryApply(form), CategoryFormPage, CategoryListRoute);
    if saved.Some? {
      log.LogActivity(req.actor.user, CategoryUpdated, Some(Described(CategoryUpdated, saved.value.data.category)),
                      Some(req), now);
    }
  }

  method CategoryDelete(categories: Table<EventCategory>, events: Table<Event>, log: ActivityLog, req: Request,
                        pk: int, now: int)
    returns (resp: Response)
    requires categories.Valid() && events.Valid()
    modifies categories, events, log
    ensures categories.Valid() && events.Valid()
    ensures var s := DeleteStep(req, pk, false, old(categories.rows), old(categories.nextPk),
                                CategoryDeletePage, CategoryListRoute);
      && Applied(resp, categories, s)
      && events.rows == (if s.saved.Some? then ClearCategory(old(events.rows), pk) else old(events.rows))
      && events.nextPk == old(events.nextPk)
      && log.entries == old(log.entries) + Logged(req, s.saved, CategoryDeleted, CategoryName(CategoryDeleted), now)
  {
    var removed;
    resp, removed := Delete(categories, req, pk, false, CategoryDeletePage, CategoryListRoute);
    if removed.Some? {
      events.Replace(ClearCategory(events.rows, pk));
      log.LogActivity(req.actor.user, CategoryDeleted, Some(Described(CategoryDeleted, removed.value.data.category)),
                      Some(req), now);
    }
  }

  /** Deleting a category keeps every event's links valid. */
  lemma CategoryDeleteKeepsLinks(events: map<int, Event>, districts: set<int>, categories: set<int>, pk: int)
    requires EventLinks(events, districts, categories)
    ensures EventLinks(ClearCategory(events, pk), districts, categories - {pk})
  {
  }

  /**
    A delete names the row as it was before the delete: the log row of a
    deleted category carries the removed row's name.
  */
  lemma CategoryDeleteNamesRemoved(req: Request, pk: int, rows: map<int, EventCategory>, nextPk: int, now: int)
    requires req.actor.Member? && req.verb == Post && pk in rows
    ensures var s := DeleteStep(req, pk, false, rows, nextPk, CategoryDeletePage, CategoryListRoute);
      && pk !in s.rows
      && Logged(req, s.saved, CategoryDeleted, CategoryName(CategoryDeleted), now)
         == [LogEntry(req.actor.user, CategoryDeleted, Some("Deleted event category: " + rows[pk].data.category),
                      ClientIp(req.meta), now)]
  {
    assert CategoryDeleted + ": " == "Deleted event category: ";
  }
}
