/**
  The public site: the home page, search, the upcoming-events calendar,
  a news article page with its view counter, the contact form and the
  newsletter signup. Querysets are modelled as the rows of a table that
  pass a filter, ordered by an integer key and sliced.
*/
module PublicViews {
  import opened Support
  import opened Models
  import opened Http
  import opened Tables
  import opened AdViews
  import opened ContactMessageViews
  import opened PublicForms

  // ---------------------------------------------------------------------------
  // Querysets
  // ---------------------------------------------------------------------------

  /** `filter(p).order_by(key)`: every row that passes `p`, once each, by ascending `key`. */
  function Selected<T(!new)>(rows: map<int, T>, p: T -> bool, key: T -> int): (r: seq<(int, T)>)
    ensures forall x :: x in r <==> x.0 in rows && rows[x.0] == x.1 && p(x.1)
    ensures |r| == |KeysWhere(rows, p)|
    ensures forall i, j :: 0 <= i < j < |r| ==> key(r[i].1) <= key(r[j].1)
  {
    var m := map k | k in rows && p(rows[k]) :: rows[k];
    assert m.Keys == KeysWhere(rows, p);
    var le := ByKey((e: (int, T)) => key(e.1));
    ByKeyIsTotalPreorder((e: (int, T)) => key(e.1));
    ListingSorted(m, le);
    Listing(m, le)
  }

  /**
    `r` is what `filter(p).order_by(key)[:n]` returns: the `n` rows with the
    smallest keys that pass `p` (all of them when fewer pass), in order; a
    passing row left out means the slice is full and its key is no smaller
    than any shown.
  */
  ghost predicate IsTop<T(!new)>(r: seq<(int, T)>, rows: map<int, T>, p: T -> bool, key: T -> int, n: nat)
  {
    && |r| == (if |KeysWhere(rows, p)| < n then |KeysWhere(rows, p)| else n)
    && (forall i :: 0 <= i < |r| ==> r[i].0 in rows && rows[r[i].0] == r[i].1 && p(r[i].1))
    && (forall i, j :: 0 <= i < j < |r| ==> key(r[i].1) <= key(r[j].1))
    && (forall k :: k in rows && p(rows[k]) && (k, rows[k]) !in r ==>
          |r| == n && forall i :: 0 <= i < |r| ==> key(r[i].1) <= key(rows[k]))
  }

  function Top<T(!new)>(rows: map<int, T>, p: T -> bool, key: T -> int, n: nat): (r: seq<(int, T)>)
    ensures IsTop(r, rows, p, key, n)
  {
    TopHolds(rows, p, key, n);
    Take(Selected(rows, p, key), n)
  }

  lemma TopHolds<T(!new)>(rows: map<int, T>, p: T -> bool, key: T -> int, n: nat)
    ensures IsTop(Take(Selected(rows, p, key), n), rows, p, key, n)
  {
    TopOf(Selected(rows, p, key), rows, p, key, n);
  }

  /** The first `n` of an ordered selection of the passing rows meet the description of a slice. */
  lemma TopOf<T(!new)>(all: seq<(int, T)>, rows: map<int, T>, p: T -> bool, key: T -> int, n: nat)
    requires forall x :: x in all <==> x.0 in rows && rows[x.0] == x.1 && p(x.1)
    requires |all| == |KeysWhere(rows, p)|
    requires forall i, j :: 0 <= i < j < |all| ==> key(all[i].1) <= key(all[j].1)
    ensures IsTop(Take(all, n), rows, p, key, n)
  {
    TopShown(all, rows, p, key, n);
    TopMissing(all, rows, p, key, n);
  }

  /** The rows a slice of a selection shows pass the filter and keep the order. */
  lemma TopShown<T(!new)>(all: seq<(int, T)>, rows: map<int, T>, p: T -> bool, key: T -> int, n: nat)
    requires forall x :: x in all <==> x.0 in rows && rows[x.0] == x.1 && p(x.1)
    requires forall i, j :: 0 <= i < j < |all| ==> key(all[i].1) <= key(all[j].1)
    ensures var r := Take(all, n);
      && (forall i :: 0 <= i < |r| ==> r[i].0 in rows && rows[r[i].0] == r[i].1 && p(r[i].1))
      && (forall i, j :: 0 <= i < j < |r| ==> key(r[i].1) <= key(r[j].1))
  {
    var r := Take(all, n);
    forall i | 0 <= i < |r| ensures r[i].0 in rows && rows[r[i].0] == r[i].1 && p(r[i].1) {
      assert r[i] == all[i] && all[i] in all;
    }
    forall i, j | 0 <= i < j < |r| ensures key(r[i].1) <= key(r[j].1) {
      assert r[i] == all[i] && r[j] == all[j];
    }
  }

  /** A passing row a slice of a selection leaves out sits behind a full slice. */
  lemma TopMissing<T(!new)>(all: seq<(int, T)>, rows: map<int, T>, p: T -> bool, key: T -> int, n: nat)
    requires forall x :: x in all <==> x.0 in rows && rows[x.0] == x.1 && p(x.1)
    requires forall i, j :: 0 <= i < j < |all| ==> key(all[i].1) <= key(all[j].1)
    ensures var r := Take(all, n);
      forall k :: k in rows && p(rows[k]) && (k, rows[k]) !in r ==>
        |r| == n && forall i :: 0 <= i < |r| ==> key(r[i].1) <= key(rows[k])
  {
    var r := Take(all, n);
    forall k | k in rows && p(rows[k]) && (k, rows[k]) !in r
      ensures |r| == n && forall i :: 0 <= i < |r| ==> key(r[i].1) <= key(rows[k])
    {
      LeftOutComesLater(all, n, (k, rows[k]), key);
    }
  }

  /** A position inside the slice holds an element of the slice. */
  lemma InPrefix<T>(all: seq<T>, n: nat, j: int)
    requires 0 <= j < |all|
    ensures j < |Take(all, n)| ==> all[j] in Take(all, n)
  {
    var r := Take(all, n);
    assert j < |r| ==> r[j] == all[j];
  }

  /** An element of an ordered sequence that is not in its first `n` sits after all of them. */
  lemma LeftOutComesLater<T>(all: seq<(int, T)>, n: nat, x: (int, T), key: T -> int)
    requires forall i, j :: 0 <= i < j < |all| ==> key(all[i].1) <= key(all[j].1)
    requires x in all && x !in Take(all, n)
    ensures |Take(all, n)| == n && forall i :: 0 <= i < n ==> key(all[i].1) <= key(x.1)
  {
    var j :| 0 <= j < |all| && all[j] == x;
    InPrefix(all, n, j);
  }

  // ---------------------------------------------------------------------------
  // Filters and keys of the public querysets
  // ---------------------------------------------------------------------------

  function EventStart(e: Event): int { e.data.start }
  function NewestNews(n: News): int { -n.createdAt }
  function RecentInitiative(i: Initiative): int { -i.updatedAt }
  function ExamDay(x: Exam): int { x.data.examDate }
  function Deadline(n: EntranceNotification): int { n.deadline }
  function NewestTestimonial(t: Testimonial): int { -t.createdAt }
  function FaqPlace(f: Faq): int { f.displayOrder }

  /** `event_start__gte=now, is_published=True`. */
  function UpcomingEvent(now: int): Event -> bool
  {
    (e: Event) => e.data.isPublished && e.data.start >= now
  }

  function PublishedNews(): News -> bool
  {
    (n: News) => n.data.isPublished
  }

  function PublishedInitiative(): Initiative -> bool
  {
    (i: Initiative) => i.data.isPublished
  }

  /** `exam_date__gte=now` on a date column: compared with today's date. */
  function UpcomingExam(today: int): Exam -> bool
  {
    (x: Exam) => x.data.isPublished && x.data.examDate >= today
  }

  function OpenNotification(today: int): EntranceNotification -> bool
  {
    (n: EntranceNotification) => n.isPublished && n.deadline >= today
  }

  function ApprovedTestimonial(): Testimonial -> bool
  {
    (t: Testimonial) => t.isApproved
  }

  function PublishedFaq(): Faq -> bool
  {
    (f: Faq) => f.isPublished
  }

  // ---------------------------------------------------------------------------
  // home
  // ---------------------------------------------------------------------------

  datatype HomePage = HomePage(
    upcomingEvents: seq<(int, Event)>,
    latestNews: seq<(int, News)>,
    initiatives: seq<(int, Initiative)>,
    latestExams: seq<(int, Exam)>,
    notifications: seq<(int, EntranceNotification)>,
    testimonials: seq<(int, Testimonial)>,
    faqs: seq<(int, Faq)>)

  /**
    `home`: a logged-in user is sent to the dashboard (`None`); anyone
    else gets the seven capped lists.
  */
  function Home(req: Request, now: int, today: int, events: map<int, Event>, news: map<int, News>,
                initiatives: map<int, Initiative>, exams: map<int, Exam>,
                notices: map<int, EntranceNotification>, testimonials: map<int, Testimonial>,
                faqs: map<int, Faq>): (r: Option<HomePage>)
    ensures r.None? <==> req.actor.Member?
    ensures r.Some? ==>
      && r.value.upcomingEvents == Top(events, UpcomingEvent(now), EventStart, 3)
      && r.value.latestNews == Top(news, PublishedNews(), NewestNews, 3)
      && r.value.initiatives == Top(initiatives, PublishedInitiative(), RecentInitiative, 2)
      && r.value.latestExams == Top(exams, UpcomingExam(today), ExamDay, 4)
      && r.value.notifications == Top(notices, OpenNotification(today), Deadline, 4)
      && r.value.testimonials == Top(testimonials, ApprovedTestimonial(), NewestTestimonial, 3)
      && r.value.faqs == Top(faqs, PublishedFaq(), FaqPlace, 5)
  {
    if req.actor.Member? then None
    else Some(HomePage(
      Top(events, UpcomingEvent(now), EventStart, 3),
      Top(news, PublishedNews(), NewestNews, 3),
      Top(initiatives, PublishedInitiative(), RecentInitiative, 2),
      Top(exams, UpcomingExam(today), ExamDay, 4),
      Top(notices, OpenNotification(today), Deadline, 4),
      Top(testimonials, ApprovedTestimonial(), NewestTestimonial, 3),
      Top(faqs, PublishedFaq(), FaqPlace, 5)))
  }

  /** The response `home` gives. */
  function HomeResponse(req: Request): (resp: Response)
    ensures req.actor.Member? <==> resp == Redirect("admindashboard:dashboard")
    ensures req.actor.Anonymous? <==> resp == Rendered("publicpage/home.html")
  {
    if req.actor.Member? then Redirect("admindashboard:dashboard") else Rendered("publicpage/home.html")
  }

  /**
    The home page shows at most three events, each published and not yet
    started, soonest first, and an upcoming published event is left out
    only when three no later than it are shown.
  */
  lemma HomeEvents(req: Request, now: int, today: int, events: map<int, Event>, news: map<int, News>,
                   initiatives: map<int, Initiative>, exams: map<int, Exam>,
                   notices: map<int, EntranceNotification>, testimonials: map<int, Testimonial>,
                   faqs: map<int, Faq>)
    requires req.actor.Anonymous?
    ensures var h := Home(req, now, today, events, news, initiatives, exams, notices, testimonials, faqs).value;
      var shown := h.upcomingEvents;
      && |shown| <= 3
      && (forall i :: 0 <= i < |shown| ==> shown[i].0 in events && shown[i].1.data.isPublished && shown[i].1.data.start >= now)
      && (forall i, j :: 0 <= i < j < |shown| ==> shown[i].1.data.start <= shown[j].1.data.start)
      && (forall k :: k in events && events[k].data.isPublished && events[k].data.start >= now && (k, events[k]) !in shown ==>
            |shown| == 3 && forall i :: 0 <= i < 3 ==> shown[i].1.data.start <= events[k].data.start)
  {
    var h := Home(req, now, today, events, news, initiatives, exams, notices, testimonials, faqs).value;
    assert h.upcomingEvents == Top(events, UpcomingEvent(now), EventStart, 3);
    UpcomingShown(h.upcomingEvents, events, now);
    UpcomingMissing(h.upcomingEvents, events, now);
  }

  /** What `IsTop` says about the upcoming-events slice, spelled out. */
  lemma UpcomingShown(shown: seq<(int, Event)>, events: map<int, Event>, now: int)
    requires IsTop(shown, events, UpcomingEvent(now), EventStart, 3)
    ensures |shown| <= 3
    ensures forall i :: 0 <= i < |shown| ==> shown[i].0 in events && shown[i].1.data.isPublished && shown[i].1.data.start >= now
    ensures forall i, j :: 0 <= i < j < |shown| ==> shown[i].1.data.start <= shown[j].1.data.start
  {
    forall i | 0 <= i < |shown|
      ensures shown[i].0 in events && shown[i].1.data.isPublished && shown[i].1.data.start >= now
    {
      assert UpcomingEvent(now)(shown[i].1);
    }
    forall i, j | 0 <= i < j < |shown| ensures shown[i].1.data.start <= shown[j].1.data.start {
      assert EventStart(shown[i].1) <= EventStart(shown[j].1);
    }
  }

  /** A published upcoming event the slice leaves out comes behind three shown ones. */
  lemma UpcomingMissing(shown: seq<(int, Event)>, events: map<int, Event>, now: int)
    requires IsTop(shown, events, UpcomingEvent(now), EventStart, 3)
    ensures forall k :: k in events && events[k].data.isPublished && events[k].data.start >= now && (k, events[k]) !in shown ==>
      |shown| == 3 && forall i :: 0 <= i < 3 ==> shown[i].1.data.start <= events[k].data.start
  {
    forall k | k in events && events[k].data.isPublished && events[k].data.start >= now && (k, events[k]) !in shown
      ensures |shown| == 3 && forall i :: 0 <= i < 3 ==> shown[i].1.data.start <= events[k].data.start
    {
      assert UpcomingEvent(now)(events[k]);
      assert forall i :: 0 <= i < |shown| ==> EventStart(shown[i].1) <= EventStart(events[k]);
    }
  }

  // ---------------------------------------------------------------------------
  // search
  // ---------------------------------------------------------------------------

  /** Case-insensitive substring test (`__icontains`), taken as given: `ICont(field, query)`. */
  type ICont = (string, string) -> bool

  /** A nullable text column matches only when it holds a value. */
  predicate HoldsMatch(field: Option<string>, q: string, icontains: ICont)
  {
    field.Some? && icontains(field.value, q)
  }

  function EventHit(q: string, now: int, icontains: ICont): Event -> bool
  {
    (e: Event) => e.data.isPublished && e.data.start >= now
                  && (icontains(e.data.name, q) || HoldsMatch(e.data.description, q, icontains))
  }

  function NewsHit(q: string, icontains: ICont): News -> bool
  {
    (n: News) => n.data.isPublished && (icontains(n.data.title, q) || icontains(n.data.content, q))
  }

  /** `Q(exam_name__icontains=q) | Q(degree_name__name__icontains=q)`: the exam's name or its degree's. */
  function ExamHit(q: string, today: int, degrees: map<int, Degree>, icontains: ICont): Exam -> bool
  {
    (x: Exam) => x.data.isPublished && x.data.examDate >= today
                 && (icontains(x.data.examName, q)
                     || (x.data.degree in degrees && icontains(degrees[x.data.degree].data.name, q)))
  }

  function InitiativeHit(q: string, icontains: ICont): Initiative -> bool
  {
    (i: Initiative) => i.data.isPublished && (icontains(i.data.name, q) || icontains(i.data.description, q))
  }

  function NotificationHit(q: string, today: int, icontains: ICont): EntranceNotification -> bool
  {
    (n: EntranceNotification) => n.isPublished && n.deadline >= today
                                 && (icontains(n.title, q) || HoldsMatch(n.description, q, icontains))
  }

  /** What the search page shows: the query, five lists of at most five rows each, and the total. */
  datatype SearchResults = SearchResults(
    query: string,
    events: seq<(int, Event)>,
    news: seq<(int, News)>,
    exams: seq<(int, Exam)>,
    initiatives: seq<(int, Initiative)>,
    notifications: seq<(int, EntranceNotification)>,
    total: nat)

  /** Results shown per list. */
  const SearchCap: nat := 5

  /**
    `search`: `q` defaults to the empty string, which finds nothing;
    otherwise each list is the first five hits in its order, and the
    total counts every hit of all five querysets before slicing.
  */
  function Search(q: Option<string>, now: int, today: int, icontains: ICont,
                  events: map<int, Event>, news: map<int, News>, exams: map<int, Exam>,
                  degrees: map<int, Degree>, initiatives: map<int, Initiative>,
                  notices: map<int, EntranceNotification>): (r: SearchResults)
    ensures r.query == if q.Some? then q.value else ""
    ensures r.query == "" ==>
      r.events == [] && r.news == [] && r.exams == [] && r.initiatives == [] && r.notifications == [] && r.total == 0
    ensures r.query != "" ==>
      && r.events == Top(events, EventHit(r.query, now, icontains), EventStart, SearchCap)
      && r.news == Top(news, NewsHit(r.query, icontains), NewestNews, SearchCap)
      && r.exams == Top(exams, ExamHit(r.query, today, degrees, icontains), ExamDay, SearchCap)
      && r.initiatives == Top(initiatives, InitiativeHit(r.query, icontains), RecentInitiative, SearchCap)
      && r.notifications == Top(notices, NotificationHit(r.query, today, icontains), Deadline, SearchCap)
      && r.total == |KeysWhere(events, EventHit(r.query, now, icontains))|
                  + |KeysWhere(news, NewsHit(r.query, icontains))|
                  + |KeysWhere(exams, ExamHit(r.query, today, degrees, icontains))|
                  + |KeysWhere(initiatives, InitiativeHit(r.query, icontains))|
                  + |KeysWhere(notices, NotificationHit(r.query, today, icontains))|
  {
    var query := if q.Some? then q.value else "";
    if query == "" then SearchResults(query, [], [], [], [], [], 0)
    else
      SearchResults(query,
        Top(events, EventHit(query, now, icontains), EventStart, SearchCap),
        Top(news, NewsHit(query, icontains), NewestNews, SearchCap),
        Top(exams, ExamHit(query, today, degrees, icontains), ExamDay, SearchCap),
        Top(initiatives, InitiativeHit(query, icontains), RecentInitiative, SearchCap),
        Top(notices, NotificationHit(query, today, icontains), Deadline, SearchCap),
        |KeysWhere(events, EventHit(query, now, icontains))|
        + |KeysWhere(news, NewsHit(query, icontains))|
        + |KeysWhere(exams, ExamHit(query, today, degrees, icontains))|
        + |KeysWhere(initiatives, InitiativeHit(query, icontains))|
        + |KeysWhere(notices, NotificationHit(query, today, icontains))|)
  }

  /** The size of a slice: at most `n`, at most the number of passing rows, and all of them when it is short. */
  lemma TopSize<T(!new)>(r: seq<(int, T)>, rows: map<int, T>, p: T -> bool, key: T -> int, n: nat)
    requires r == Top(rows, p, key, n)
    ensures |r| <= n && |r| <= |KeysWhere(rows, p)|
    ensures |r| < n ==> |r| == |KeysWhere(rows, p)|
  {
  }

  /** Every list is capped at five, and the total is never less than what is shown. */
  lemma SearchCapped(q: Option<string>, now: int, today: int, icontains: ICont,
                     events: map<int, Event>, news: map<int, News>, exams: map<int, Exam>,
                     degrees: map<int, Degree>, initiatives: map<int, Initiative>,
                     notices: map<int, EntranceNotification>)
    ensures var r := Search(q, now, today, icontains, events, news, exams, degrees, initiatives, notices);
      && |r.events| <= 5 && |r.news| <= 5 && |r.exams| <= 5 && |r.initiatives| <= 5 && |r.notifications| <= 5
      && |r.events| + |r.news| + |r.exams| + |r.initiatives| + |r.notifications| <= r.total
  {
    if q.Some? && q.value != "" {
      var r := Search(q, now, today, icontains, events, news, exams, degrees, initiatives, notices);
      SearchSizes(r.events, events, EventHit(r.query, now, icontains), EventStart,
                  r.news, news, NewsHit(r.query, icontains), NewestNews,
                  r.exams, exams, ExamHit(r.query, today, degrees, icontains), ExamDay,
                  r.initiatives, initiatives, InitiativeHit(r.query, icontains), RecentInitiative,
                  r.notifications, notices, NotificationHit(r.query, today, icontains), Deadline, r.total);
    }
  }

  /**
    Five lists cut from their querysets as a non-empty search cuts them, and
    the total of their hit counts: each is capped at five, and the total is
    what they show when none is full.
  */
  lemma SearchSizes<A(!new), B(!new), C(!new), D(!new), E(!new)>(
      a: seq<(int, A)>, ra: map<int, A>, pa: A -> bool, ka: A -> int,
      b: seq<(int, B)>, rb: map<int, B>, pb: B -> bool, kb: B -> int,
      c: seq<(int, C)>, rc: map<int, C>, pc: C -> bool, kc: C -> int,
      d: seq<(int, D)>, rd: map<int, D>, pd: D -> bool, kd: D -> int,
      e: seq<(int, E)>, re: map<int, E>, pe: E -> bool, ke: E -> int, total: nat)
    requires a == Top(ra, pa, ka, SearchCap) && b == Top(rb, pb, kb, SearchCap) && c == Top(rc, pc, kc, SearchCap)
    requires d == Top(rd, pd, kd, SearchCap) && e == Top(re, pe, ke, SearchCap)
    requires total == |KeysWhere(ra, pa)| + |KeysWhere(rb, pb)| + |KeysWhere(rc, pc)| + |KeysWhere(rd, pd)| + |KeysWhere(re, pe)|
    ensures && |a| <= 5 && |b| <= 5 && |c| <= 5 && |d| <= 5 && |e| <= 5
            && |a| + |b| + |c| + |d| + |e| <= total
    ensures (|a| < 5 && |b| < 5 && |c| < 5 && |d| < 5 && |e| < 5) ==> total == |a| + |b| + |c| + |d| + |e|
  {
    TopSize(a, ra, pa, ka, SearchCap);
    TopSize(b, rb, pb, kb, SearchCap);
    TopSize(c, rc, pc, kc, SearchCap);
    TopSize(d, rd, pd, kd, SearchCap);
    TopSize(e, re, pe, ke, SearchCap);
  }

  /**
    When every list shows fewer than five rows, nothing was cut and the
    total is exactly what is shown.
  */
  lemma SearchTotalIsShownWhenFew(q: Option<string>, now: int, today: int, icontains: ICont,
                                  events: map<int, Event>, news: map<int, News>, exams: map<int, Exam>,
                                  degrees: map<int, Degree>, initiatives: map<int, Initiative>,
                                  notices: map<int, EntranceNotification>)
    ensures var r := Search(q, now, today, icontains, events, news, exams, degrees, initiatives, notices);
      (|r.events| < 5 && |r.news| < 5 && |r.exams| < 5 && |r.initiatives| < 5 && |r.notifications| < 5) ==>
        r.total == |r.events| + |r.news| + |r.exams| + |r.initiatives| + |r.notifications|
  {
    var r := Search(q, now, today, icontains, events, news, exams, degrees, initiatives, notices);
    if r.query != "" {
      SearchSizes(r.events, events, EventHit(r.query, now, icontains), EventStart,
                  r.news, news, NewsHit(r.query, icontains), NewestNews,
                  r.exams, exams, ExamHit(r.query, today, degrees, icontains), ExamDay,
                  r.initiatives, initiatives, InitiativeHit(r.query, icontains), RecentInitiative,
                  r.notifications, notices, NotificationHit(r.query, today, icontains), Deadline, r.total);
    }
  }

  /** A published, upcoming event whose name contains the query is found, unless five earlier ones fill the list. */
  lemma SearchFindsEvent(q: string, now: int, today: int, icontains: ICont,
                         events: map<int, Event>, news: map<int, News>, exams: map<int, Exam>,
                         degrees: map<int, Degree>, initiatives: map<int, Initiative>,
                         notices: map<int, EntranceNotification>, k: int)
    requires q != "" && k in events
    requires events[k].data.isPublished && events[k].data.start >= now && icontains(events[k].data.name, q)
    ensures var r := Search(Some(q), now, today, icontains, events, news, exams, degrees, initiatives, notices);
      (k, events[k]) in r.events ||
      (|r.events| == 5 && forall i :: 0 <= i < 5 ==> r.events[i].1.data.start <= events[k].data.start)
  {
    var r := Search(Some(q), now, today, icontains, events, news, exams, degrees, initiatives, notices);
    assert EventHit(q, now, icontains)(events[k]);
    TopFinds(r.events, events, EventHit(q, now, icontains), EventStart, SearchCap, k);
  }

  /** A passing row is in the slice, or the slice is full of rows no later than it. */
  lemma TopFinds<T(!new)>(r: seq<(int, T)>, rows: map<int, T>, p: T -> bool, key: T -> int, n: nat, k: int)
    requires r == Top(rows, p, key, n) && k in rows && p(rows[k])
    ensures (k, rows[k]) in r || (|r| == n && forall i :: 0 <= i < n ==> key(r[i].1) <= key(rows[k]))
  {
  }

  // ---------------------------------------------------------------------------
  // events_list
  // ---------------------------------------------------------------------------

  /** Events per calendar page. */
  const EventsPerPage: nat := 10

  /** `event_start.strftime('%B %Y')`, taken as given. */
  type MonthKey = int -> string

  function InMonth(m: string, month: MonthKey): ((int, Event)) -> bool
  {
    (e: (int, Event)) => month(e.1.data.start) == m
  }

  /**
    The keys of `events_by_month` in insertion order: each month once, in
    the order of the first event that falls in it.
  */
  function MonthsOf(s: seq<(int, Event)>, month: MonthKey): (r: seq<string>)
    ensures forall i, j :: 0 <= i < j < |r| ==> r[i] != r[j]
    ensures forall m :: m in r <==> exists i :: 0 <= i < |s| && month(s[i].1.data.start) == m
    decreases |s|
  {
    if s == [] then []
    else
      var init := s[..|s| - 1];
      var ms := MonthsOf(init, month);
      var last := month(s[|s| - 1].1.data.start);
      assert forall i :: 0 <= i < |init| ==> init[i] == s[i];
      if last in ms then ms else ms + [last]
  }

  /**
    The loop of `events_list` that fills `events_by_month`: for each event
    in turn, a list is opened for its month the first time the month is
    seen, and the event is appended to it.
  */
  method GroupByMonth(s: seq<(int, Event)>, month: MonthKey)
    returns (months: seq<string>, groups: map<string, seq<(int, Event)>>)
    ensures months == MonthsOf(s, month)
    ensures forall m :: m in groups <==> m in months
    ensures forall m :: m in groups ==> groups[m] == Filter(s, InMonth(m, month))
  {
    months := [];
    groups := map[];
    var i := 0;
    while i < |s|
      invariant 0 <= i <= |s|
      invariant months == MonthsOf(s[..i], month)
      invariant forall m :: m in groups <==> m in months
      invariant forall m :: m in groups ==> groups[m] == Filter(s[..i], InMonth(m, month))
    {
      var e := s[i];
      var key := month(e.1.data.start);
      assert s[..i + 1][..i] == s[..i];
      assert s[..i + 1][i] == e;
      var bucket := [];
      if key in groups {
        bucket := groups[key];
      } else {
        NoEventOfMonth(s[..i], key, month);
        months := months + [key];
      }
      groups := groups[key := bucket + [e]];
      i := i + 1;
    }
    assert s[..|s|] == s;
  }

  /** A month not among the keys so far has no event so far. */
  lemma NoEventOfMonth(s: seq<(int, Event)>, m: string, month: MonthKey)
    requires m !in MonthsOf(s, month)
    ensures Filter(s, InMonth(m, month)) == []
  {
    FilterNone(s, InMonth(m, month));
  }

  /** The calendar page: upcoming published events oldest first, paged, and grouped by month. */
  datatype Calendar = Calendar(page: Page<(int, Event)>, months: seq<string>,
                               groups: map<string, seq<(int, Event)>>)

  /** The upcoming published events in start order: the queryset `events_list` pages and groups. */
  function UpcomingEvents(events: map<int, Event>, now: int): (r: seq<(int, Event)>)
    ensures forall x :: x in r <==> x.0 in events && events[x.0] == x.1 && x.1.data.isPublished && x.1.data.start >= now
    ensures forall i, j :: 0 <= i < j < |r| ==> r[i].1.data.start <= r[j].1.data.start
  {
    Selected(events, UpcomingEvent(now), EventStart)
  }

  method EventsList(events: map<int, Event>, req: Request, now: int, month: MonthKey) returns (c: Calendar)
    ensures c.page == GetPage(UpcomingEvents(events, now), EventsPerPage, req.page)
    ensures c.months == MonthsOf(UpcomingEvents(events, now), month)
    ensures forall m :: m in c.groups <==> m in c.months
    ensures forall m :: m in c.groups ==> c.groups[m] == Filter(UpcomingEvents(events, now), InMonth(m, month))
  {
    var upcoming := UpcomingEvents(events, now);
    var months, groups := GroupByMonth(upcoming, month);
    c := Calendar(GetPage(upcoming, EventsPerPage, req.page), months, groups);
  }

  /** Every upcoming published event is in the group of its own month and in no other. */
  lemma EventsGroupedOnce(events: map<int, Event>, now: int, month: MonthKey,
                          months: seq<string>, groups: map<string, seq<(int, Event)>>, k: int)
    requires months == MonthsOf(UpcomingEvents(events, now), month)
    requires forall m :: m in groups <==> m in months
    requires forall m :: m in groups ==> groups[m] == Filter(UpcomingEvents(events, now), InMonth(m, month))
    requires k in events && events[k].data.isPublished && events[k].data.start >= now
    ensures var m := month(events[k].data.start);
      && m in groups && (k, events[k]) in groups[m]
      && forall m' :: m' in groups && m' != m ==> (k, events[k]) !in groups[m']
  {
    var up := UpcomingEvents(events, now);
    var x := (k, events[k]);
    var m := month(events[k].data.start);
    assert x in up;
    var i :| 0 <= i < |up| && up[i] == x;
    assert m in months;
    assert InMonth(m, month)(x);
    InFilter(up, InMonth(m, month), x);
    forall m' | m' in groups && m' != m ensures x !in groups[m'] {
      assert !InMonth(m', month)(x);
    }
  }

  lemma InFilter<T(!new)>(s: seq<T>, p: T -> bool, x: T)
    requires x in s && p(x)
    ensures x in Filter(s, p)
  {
  }

  /** Each month's group keeps the start order of the queryset. */
  lemma GroupsKeepStartOrder(events: map<int, Event>, now: int, month: MonthKey,
                             groups: map<string, seq<(int, Event)>>, m: string)
    requires m in groups && groups[m] == Filter(UpcomingEvents(events, now), InMonth(m, month))
    ensures forall i, j :: 0 <= i < j < |groups[m]| ==> groups[m][i].1.data.start <= groups[m][j].1.data.start
  {
    var up := UpcomingEvents(events, now);
    var le := (a: (int, Event), b: (int, Event)) => a.1.data.start <= b.1.data.start;
    assert Sorted(up, le);
    FilterSorted(up, InMonth(m, month), le);
  }

  // ---------------------------------------------------------------------------
  // news_detail
  // ---------------------------------------------------------------------------

  const NewsDetailPage := "publicpage/news_detail.html"

  /** The rows `get_object_or_404(News, slug=slug, is_published=True)` can match. */
  function Holders(rows: map<int, News>, slug: string): (ks: set<int>)
    ensures forall k :: k in ks <==> k in rows && rows[k].data.slug == Some(slug) && rows[k].data.isPublished
  {
    KeysWhere(rows, (n: News) => n.data.slug == Some(slug) && n.data.isPublished)
  }

  /** The article as the visit saves it: one more view, then `News.save`. */
  function Visited(n: News, others: set<string>, slugify: string -> string): News
  {
    Normalized(n.(viewsCount := n.viewsCount + 1), others, slugify)
  }

  /** The first active ad for each of the five locations. */
  datatype AdSlots = AdSlots(
    aboveContent: Option<(int, AdSetting)>, belowContent: Option<(int, AdSetting)>,
    sidebarTop: Option<(int, AdSetting)>, sidebarBottom: Option<(int, AdSetting)>,
    betweenContent: Option<(int, AdSetting)>)

  function AdsFor(ads: map<int, AdSetting>): AdSlots
  {
    AdSlots(FirstActive(ads, AboveContent), FirstActive(ads, BelowContent), FirstActive(ads, SidebarTop),
            FirstActive(ads, SidebarBottom), FirstActive(ads, BetweenContent))
  }

  /** What the article page shows besides the article. */
  datatype ArticlePage = ArticlePage(article: (int, News), related: seq<(int, News)>, ads: AdSlots)

  /**
    `news_detail`: 404 when no published row has the slug, a server error
    when two do (`get` raises); otherwise the three newest other published
    articles, the ads, and the article saved with one more view.
  */
  method NewsDetail(news: Table<News>, ads: map<int, AdSetting>, slug: string, slugify: string -> string)
    returns (resp: Response, page: Option<ArticlePage>)
    requires news.Valid()
    modifies news
    ensures news.Valid() && news.nextPk == old(news.nextPk)
    ensures |Holders(old(news.rows), slug)| == 0 ==>
      resp == NotFound && page.None? && news.rows == old(news.rows)
    ensures |Holders(old(news.rows), slug)| > 1 ==>
      resp == ServerError && page.None? && news.rows == old(news.rows)
    ensures forall k :: k in Holders(old(news.rows), slug) && |Holders(old(news.rows), slug)| == 1 ==>
      && resp == Rendered(NewsDetailPage)
      && page == Some(ArticleShown(old(news.rows), k, ads, slugify))
      && news.rows == old(news.rows)[k := page.value.article.1]
  {
    var holders := Holders(news.rows, slug);
    if |holders| == 0 {
      return NotFound, None;
    }
    if |holders| > 1 {
      return ServerError, None;
    }
    var keys := AscendingKeys(holders);
    var k := keys[0];
    assert k in keys;
    forall j | j in holders ensures j == k {
      CardAtLeastTwo(holders, j, k);
    }
    var article := ShowArticle(news, k, ads, slugify);
    resp, page := Rendered(NewsDetailPage), Some(article);
  }

  /** The page for row `k`: the article as the visit saves it, the related articles and the ads. */
  function ArticleShown(rows: map<int, News>, k: int, ads: map<int, AdSetting>, slugify: string -> string): ArticlePage
    requires k in rows
  {
    ArticlePage((k, Visited(rows[k], SlugsOf(rows, Some(k)), slugify)),
                Top(rows - {k}, PublishedNews(), NewestNews, 3), AdsFor(ads))
  }

  /** The found article: its view counted and saved, the related articles and the ads. */
  method ShowArticle(news: Table<News>, k: int, ads: map<int, AdSetting>, slugify: string -> string)
    returns (page: ArticlePage)
    requires news.Valid() && k in news.rows
    modifies news
    ensures news.Valid() && news.nextPk == old(news.nextPk)
    ensures page == ArticleShown(old(news.rows), k, ads, slugify)
    ensures news.rows == old(news.rows)[k := page.article.1]
  {
    var rows := news.rows;
    var n := rows[k];
    var saved := PrepareSave(n.(viewsCount := n.viewsCount + 1), SlugsOf(rows, Some(k)), slugify);
    VisitSaved(n, SlugsOf(rows, Some(k)), slugify, saved);
    news.Update(k, saved);
    page := ArticleShown(rows, k, ads, slugify);
  }

  lemma VisitSaved(n: News, others: set<string>, slugify: string -> string, saved: News)
    requires saved == Normalized(n.(viewsCount := n.viewsCount + 1), others, slugify)
    ensures saved == Visited(n, others, slugify)
  {
  }

  /** Two distinct members make a set of at least two. */
  lemma CardAtLeastTwo(ks: set<int>, a: int, b: int)
    requires a in ks && b in ks
    ensures a != b ==> |ks| >= 2
  {
    var rest := ks - {a};
    assert ks == rest + {a};
    assert a != b ==> b in rest;
  }

  /** Under the unique constraint on slugs, a slug is held by at most one row, so `get` never raises. */
  lemma UniqueSlugsOneHolder(rows: map<int, News>, slug: string)
    requires UniqueSlugs(rows)
    ensures |Holders(rows, slug)| <= 1
  {
    var hs := Holders(rows, slug);
    if hs != {} {
      var k := Pick(hs);
      assert hs == {k} by {
        forall j | j in hs ensures j == k {
          assert rows[j].data.slug == rows[k].data.slug;
        }
      }
    }
  }

  /**
    A visit adds exactly one to the article's view count and keeps its
    other counters, its creation stamp and its non-empty slug, so the
    article stays at the same address.
  */
  lemma VisitCounts(n: News, others: set<string>, slugify: string -> string, slug: string)
    requires n.data.slug == Some(slug) && slug != ""
    ensures var v := Visited(n, others, slugify);
      && v.viewsCount == n.viewsCount + 1 && v.likesCount == n.likesCount
      && v.createdAt == n.createdAt && v.data.slug == Some(slug) && v.data.isPublished == n.data.isPublished
  {
    SaveKeepsSlug(n.(viewsCount := n.viewsCount + 1), others, slugify);
    SaveKeepsTheRest(n.(viewsCount := n.viewsCount + 1), others, slugify);
  }

  /** The related list holds at most three published articles, newest first, never the article itself. */
  lemma RelatedExcludesSelf(rows: map<int, News>, k: int)
    ensures var r := Top(rows - {k}, PublishedNews(), NewestNews, 3);
      && |r| <= 3
      && (forall i :: 0 <= i < |r| ==> r[i].0 != k && r[i].0 in rows && r[i].1 == rows[r[i].0] && r[i].1.data.isPublished)
      && (forall i, j :: 0 <= i < j < |r| ==> r[i].1.createdAt >= r[j].1.createdAt)
  {
  }

  // ---------------------------------------------------------------------------
  // contact
  // ---------------------------------------------------------------------------

  const ContactPage := "publicpage/contact.html"
  const ContactRoute := "publicpage:contact"

  /** The four `request.POST.get(...)` values; a missing field is `None`. */
  datatype ContactPost = ContactPost(name: Option<string>, email: Option<string>,
                                     subject: Option<string>, message: Option<string>)

  predicate Complete(p: ContactPost)
  {
    p.name.Some? && p.email.Some? && p.subject.Some? && p.message.Some?
  }

  /**
    `contact`: a POST stores one unread message when all four fields are
    present; a missing one makes the insert fail, and the failure is
    swallowed. Either way the user is redirected back to the form.
  */
  method Contact(contacts: Table<ContactUs>, req: Request, post: ContactPost, now: int) returns (resp: Response)
    requires contacts.Valid()
    modifies contacts
    ensures contacts.Valid()
    ensures req.verb != Post ==>
      resp == Rendered(ContactPage) && contacts.rows == old(contacts.rows) && contacts.nextPk == old(contacts.nextPk)
    ensures req.verb == Post ==> resp == Redirect(ContactRoute)
    ensures req.verb == Post && Complete(post) ==>
      && contacts.rows == old(contacts.rows)[old(contacts.nextPk) :=
           ContactUs(post.name.value, post.email.value, post.subject.value, post.message.value, now, false)]
      && contacts.nextPk == old(contacts.nextPk) + 1
    ensures req.verb == Post && !Complete(post) ==>
      contacts.rows == old(contacts.rows) && contacts.nextPk == old(contacts.nextPk)
  {
    if req.verb != Post {
      return Rendered(ContactPage);
    }
    if Complete(post) {
      var _ := contacts.Insert(ContactUs(post.name.value, post.email.value, post.subject.value,
                                         post.message.value, now, false));
    }
    resp := Redirect(ContactRoute);
  }

  /** A stored contact message raises the inbox's unread count by one. */
  lemma ContactAddsUnread(rows: map<int, ContactUs>, pk: int, c: ContactUs)
    requires pk !in rows && !c.isRead
    ensures Unread(rows[pk := c]) == Unread(rows) + {pk}
    ensures |Unread(rows[pk := c])| == |Unread(rows)| + 1
  {
    assert Unread(rows[pk := c]) == Unread(rows) + {pk};
  }

  // ---------------------------------------------------------------------------
  // newsletter_signup
  // ---------------------------------------------------------------------------

  const HomeRoute := "publicpage:home"

  /**
    `newsletter_signup`: on POST a valid, not yet subscribed address is
    saved; whatever happens the user is sent back to the home page.
    `email` is `None` when the email field itself rejects the input.
  */
  method NewsletterSignup(subscribers: Table<string>, req: Request, email: Option<string>) returns (resp: Response)
    requires subscribers.Valid()
    modifies subscribers
    ensures subscribers.Valid()
    ensures resp == Redirect(HomeRoute)
    ensures req.verb == Post && email.Some? && CleanEmail(email.value, Subscribed(old(subscribers.rows))).Clean? ==>
      && subscribers.rows == old(subscribers.rows)[old(subscribers.nextPk) := email.value]
      && subscribers.nextPk == old(subscribers.nextPk) + 1
    ensures !(req.verb == Post && email.Some? && CleanEmail(email.value, Subscribed(old(subscribers.rows))).Clean?) ==>
      subscribers.rows == old(subscribers.rows) && subscribers.nextPk == old(subscribers.nextPk)
  {
    if req.verb == Post && email.Some? {
      var cleaned := CleanEmail(email.value, Subscribed(subscribers.rows));
      if cleaned.Clean? {
        var _ := subscribers.Insert(cleaned.value);
      }
    }
    resp := Redirect(HomeRoute);
  }
}
