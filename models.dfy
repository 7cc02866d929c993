/**
  The portal's database rows, the normalisation `News.save` applies before
  writing a news row, and the profile that the `post_save` signal creates
  for a new user.

  A row that a model form edits is split into the part the form submits
  (`...Data`) and the part the view or the model fills in (creator,
  timestamps, counters). Foreign keys are primary keys (`int`); a nullable
  foreign key is an `Option<int>`. Datetimes are integer ticks and dates are
  integer day numbers. Profiles are identified by the id of their user,
  because the profile-to-user link is one-to-one.
*/
module Models {
  import opened Support
  import Slugs

  // ---------------------------------------------------------------------------
  // Users and profiles
  // ---------------------------------------------------------------------------

  /** The fields of `auth.User` the portal reads. */
  datatype AuthUser = AuthUser(id: int, username: string, email: string,
                               isStaff: bool, isSuperuser: bool, isActive: bool)

  datatype UserProfile = UserProfile(
    user: int, email: string,
    isActive: bool, isStaff: bool, isSuperuser: bool,
    isVerified: bool, isApproved: bool, isBlocked: bool, isDeleted: bool)

  /**
    The profile created for `user`: email and the three flags copied from
    the user, every other flag at its field default.
  */
  function NewProfile(user: AuthUser): (p: UserProfile)
    ensures p.user == user.id && p.email == user.email
    ensures p.isStaff == user.isStaff && p.isSuperuser == user.isSuperuser && p.isActive == user.isActive
    ensures !p.isVerified && !p.isApproved && !p.isBlocked && !p.isDeleted
  {
    UserProfile(user.id, user.email, user.isActive, user.isStaff, user.isSuperuser,
                false, false, false, false)
  }

  /** The profile table, keyed by user id (the one-to-one `user` field). */
  class ProfileTable {
    var byUser: map<int, UserProfile>

    constructor(initial: map<int, UserProfile>)
      ensures byUser == initial
    {
      byUser := initial;
    }

    /**
      `UserProfile.objects.create(user=...)`: inserts a profile for a user
      that has none; a second profile for the same user breaks the
      one-to-one constraint, so the insert fails and nothing changes.
    */
    method Create(user: AuthUser) returns (ok: bool)
      modifies this
      ensures ok <==> user.id !in old(byUser)
      ensures ok ==> byUser == old(byUser)[user.id := NewProfile(user)]
      ensures !ok ==> byUser == old(byUser)
    {
      if user.id in byUser {
        return false;
      }
      byUser := byUser[user.id := NewProfile(user)];
      return true;
    }

    /**
      The `create_user_profile` receiver of `post_save` on `User`: a
      creating save inserts exactly one profile copied from the user, any
      other save inserts none.
    */
    method OnUserSaved(user: AuthUser, created: bool) returns (ok: bool)
      modifies this
      ensures created && user.id !in old(byUser) ==> ok && byUser == old(byUser)[user.id := NewProfile(user)]
      ensures created && user.id in old(byUser) ==> !ok && byUser == old(byUser)
      ensures !created ==> ok && byUser == old(byUser)
    {
      ok := true;
      if created {
        ok := Create(user);
      }
    }
  }

  // ---------------------------------------------------------------------------
  // Content rows
  // ---------------------------------------------------------------------------

  /** The fields `NewsForm` submits (the two image uploads are not modelled). */
  datatype NewsData = NewsData(
    title: string, slug: Option<string>, content: string, excerpt: string,
    isPublished: bool, metaTitle: string, metaDescription: string, keywords: string)

  datatype News = News(data: NewsData, readingTime: nat, viewsCount: nat, likesCount: nat,
                       createdAt: int, createdBy: int)

  datatype EventData = EventData(
    name: string, start: int, end: Option<int>, place: string, link: Option<string>,
    description: Option<string>, mapLink: Option<string>,
    district: Option<int>, category: Option<int>, isPublished: bool)

  datatype Event = Event(data: EventData, createdBy: int)

  /** The fields `GalleryForm` submits (the image upload is not modelled). */
  datatype GalleryData = GalleryData(title: string, description: string, isVisible: bool)

  datatype Gallery = Gallery(data: GalleryData, createdAt: int, createdBy: int)

  datatype DistrictData = DistrictData(name: string, isActive: bool)

  datatype District = District(data: DistrictData, createdBy: int)

  /** The fields `InitiativeForm` submits (the photo upload is not modelled). */
  datatype InitiativeData = InitiativeData(name: string, description: string, link: Option<string>,
                                           isPublished: bool)

  datatype Initiative = Initiative(data: InitiativeData, updatedAt: int, createdBy: int)

  datatype CategoryData = CategoryData(category: string)

  datatype EventCategory = EventCategory(data: CategoryData, createdBy: int)

  // ---------------------------------------------------------------------------
  // Academic rows
  // ---------------------------------------------------------------------------

  /** The fields `QuestionPaperForm` submits (the file upload is not modelled). */
  datatype QuestionData = QuestionData(degree: int, semester: nat, subject: string, year: nat,
                                       university: int, isPublished: bool)

  datatype QuestionPaper = QuestionPaper(data: QuestionData, updatedAt: int, createdBy: int)

  datatype UniversityData = UniversityData(name: string)

  datatype University = University(data: UniversityData, createdBy: int)

  datatype DegreeData = DegreeData(name: string, university: int)

  datatype Degree = Degree(data: DegreeData, createdBy: int)

  datatype ExamData = ExamData(
    examName: string, examDate: int, examUrl: string, degree: int, semester: string,
    admissionYear: nat, university: int, isPublished: bool)

  datatype Exam = Exam(data: ExamData, updatedAt: int, createdBy: int)

  // ---------------------------------------------------------------------------
  // Jobs, ads, messages and the read-only public rows
  // ---------------------------------------------------------------------------

  datatype JobData = JobData(title: string, description: string, lastDate: int, isPublished: bool)

  datatype Job = Job(data: JobData, updatedAt: int, createdBy: int)

  /** The five choices of `AdSettings.location`. */
  datatype AdLocation = AboveContent | BelowContent | SidebarTop | SidebarBottom | BetweenContent

  datatype AdData = AdData(name: string, adCode: string, location: AdLocation, isActive: bool)

  datatype AdSetting = AdSetting(data: AdData, createdAt: int, createdBy: int)

  datatype ContactUs = ContactUs(name: string, email: string, subject: string, message: string,
                                 createdAt: int, isRead: bool)

  datatype EntranceNotification = EntranceNotification(
    title: string, description: Option<string>, deadline: int, isPublished: bool)

  datatype Testimonial = Testimonial(authorName: string, text: string, isApproved: bool, createdAt: int)

  datatype Faq = Faq(question: string, answer: string, isPublished: bool, displayOrder: nat, createdAt: int)

  /** One `ActivityLog` row. */
  datatype LogEntry = LogEntry(user: int, action: string, details: Option<string>,
                               ip: Option<string>, timestamp: int)

  /** `Degree.__str__`: the degree name with its university's name in brackets. */
  function DegreeLabel(d: Degree, universities: map<int, University>): (s: string)
    requires d.data.university in universities
  {
    d.data.name + " (" + universities[d.data.university].data.name + ")"
  }

  // ---------------------------------------------------------------------------
  // Python's str.split() with no argument
  // ---------------------------------------------------------------------------

  /** The characters `str.isspace()` accepts, which are what `str.split()` splits on. */
  predicate IsSpace(c: char)
  {
    || ('\t' <= c <= '\r') || ('\U{1c}' <= c <= ' ') || c == '\U{85}' || c == '\U{a0}'
    || c == '\U{1680}' || ('\U{2000}' <= c <= '\U{200a}') || c == '\U{2028}' || c == '\U{2029}'
    || c == '\U{202f}' || c == '\U{205f}' || c == '\U{3000}'
  }

  predicate NoSpace(w: string)
  {
    forall i :: 0 <= i < |w| ==> !IsSpace(w[i])
  }

  /** The longest prefix of `s` without whitespace. */
  function LeadingWord(s: string): (w: string)
    ensures |w| <= |s| && w == s[..|w|] && NoSpace(w)
    ensures |w| < |s| ==> IsSpace(s[|w|])
    ensures s != [] && !IsSpace(s[0]) ==> |w| >= 1
  {
    if s == [] || IsSpace(s[0]) then []
    else
      var rest := LeadingWord(s[1..]);
      assert s[..|rest| + 1] == [s[0]] + s[1..][..|rest|];
      [s[0]] + rest
  }

  /** `s.split()`: the maximal runs of non-whitespace, in order. */
  function Split(s: string): (words: seq<string>)
    ensures forall i :: 0 <= i < |words| ==> |words[i]| > 0 && NoSpace(words[i])
    decreases |s|
  {
    if s == [] then []
    else if IsSpace(s[0]) then Split(s[1..])
    else
      var w := LeadingWord(s);
      [w] + Split(s[|w|..])
  }

  /** `" ".join(words)`. */
  function JoinWords(words: seq<string>): string
  {
    if words == [] then ""
    else if |words| == 1 then words[0]
    else words[0] + " " + JoinWords(words[1..])
  }

  lemma {:induction false} LeadingWordOf(w: string, rest: string)
    requires NoSpace(w)
    requires rest == [] || IsSpace(rest[0])
    ensures LeadingWord(w + rest) == w
    decreases |w|
  {
    if w != [] {
      assert (w + rest)[1..] == w[1..] + rest;
      LeadingWordOf(w[1..], rest);
    }
  }

  /** Splitting words joined by single spaces gives the words back. */
  lemma {:induction false} SplitJoin(words: seq<string>)
    requires forall i :: 0 <= i < |words| ==> |words[i]| > 0 && NoSpace(words[i])
    ensures Split(JoinWords(words)) == words
    decreases |words|
  {
    if |words| == 1 {
      assert words[0] + [] == words[0];
      SplitWordThen(words[0], []);
    } else if |words| > 1 {
      SplitJoin(words[1..]);
      assert JoinWords(words) == words[0] + (" " + JoinWords(words[1..]));
      SplitCons(words[0], JoinWords(words[1..]), words[1..]);
      assert words == [words[0]] + words[1..];
    }
  }

  /** A word, a space and a text split as the word followed by the text's words. */
  lemma SplitCons(w: string, tail: string, ws: seq<string>)
    requires |w| > 0 && NoSpace(w) && Split(tail) == ws
    ensures Split(w + (" " + tail)) == [w] + ws
  {
    SplitWordThen(w, " " + tail);
    assert (" " + tail)[1..] == tail;
  }

  /** A word followed by a space or by nothing is split off whole. */
  lemma SplitWordThen(w: string, rest: string)
    requires |w| > 0 && NoSpace(w)
    requires rest == [] || IsSpace(rest[0])
    ensures Split(w + rest) == [w] + Split(rest)
  {
    LeadingWordOf(w, rest);
    assert (w + rest)[|w|..] == rest;
  }

  /** The words written one after the other, with nothing between them. */
  function Concat(words: seq<string>): string
  {
    if words == [] then "" else words[0] + Concat(words[1..])
  }

  predicate NotSpace(c: char)
  {
    !IsSpace(c)
  }

  /** How many words end in `s`: characters other than whitespace followed by whitespace or by the end. */
  function WordEnds(s: string): nat
  {
    if s == [] then 0
    else (if !IsSpace(s[0]) && (|s| == 1 || IsSpace(s[1])) then 1 else 0) + WordEnds(s[1..])
  }

  /** The words hold every character of the text but its whitespace, in order. */
  lemma {:induction false} SplitKeepsText(s: string)
    ensures Concat(Split(s)) == Filter(s, NotSpace)
    decreases |s|
  {
    if s != [] && IsSpace(s[0]) {
      SplitKeepsText(s[1..]);
      FilterSkipsSpace(s);
    } else if s != [] {
      var w := LeadingWord(s);
      var rest := s[|w|..];
      SplitKeepsText(rest);
      ConcatCons(w, Split(rest));
      assert s == w + rest;
      FilterKeepsWord(w, rest);
    }
  }

  lemma ConcatCons(w: string, ws: seq<string>)
    ensures Concat([w] + ws) == w + Concat(ws)
  {
    assert ([w] + ws)[1..] == ws;
  }

  /** Leading whitespace does not reach the filtered text. */
  lemma FilterSkipsSpace(s: string)
    requires s != [] && IsSpace(s[0])
    ensures Filter(s, NotSpace) == Filter(s[1..], NotSpace)
  {
    assert s == [s[0]] + s[1..];
    FilterAppend([s[0]], s[1..], NotSpace);
    FilterNone([s[0]], NotSpace);
  }

  /** A leading word reaches the filtered text whole. */
  lemma FilterKeepsWord(w: string, rest: string)
    requires NoSpace(w)
    ensures Filter(w + rest, NotSpace) == w + Filter(rest, NotSpace)
  {
    FilterAppend(w, rest, NotSpace);
    FilterAll(w, NotSpace);
  }

  /** There are as many words as places where a word ends. */
  lemma {:induction false} SplitCount(s: string)
    ensures |Split(s)| == WordEnds(s)
    decreases |s|
  {
    if s != [] && IsSpace(s[0]) {
      SplitCount(s[1..]);
    } else if s != [] {
      var w := LeadingWord(s);
      var rest := s[|w|..];
      SplitCount(rest);
      assert s == w + rest;
      WordEndsAfterWord(w, rest);
    }
  }

  /** A word followed by whitespace or by nothing ends exactly once. */
  lemma {:induction false} WordEndsAfterWord(w: string, rest: string)
    requires |w| > 0 && NoSpace(w)
    requires rest == [] || IsSpace(rest[0])
    ensures WordEnds(w + rest) == 1 + WordEnds(rest)
    decreases |w|
  {
    assert (w + rest)[1..] == w[1..] + rest;
    if |w| > 1 {
      WordEndsAfterWord(w[1..], rest);
    } else {
      assert w[1..] + rest == rest;
    }
  }

  // ---------------------------------------------------------------------------
  // News.save
  // ---------------------------------------------------------------------------

  /** `not self.slug`: no slug, or the empty one. */
  predicate SlugEmpty(slug: Option<string>)
  {
    slug.None? || slug.value == ""
  }

  /** `max(1, int(words / 200))`: 200 words a minute, never below one minute. */
  function ReadingTime(content: string): (minutes: nat)
    ensures minutes >= 1
    ensures |Split(content)| >= 200 ==> minutes * 200 <= |Split(content)| < (minutes + 1) * 200
    ensures |Split(content)| < 400 ==> minutes == 1
  {
    var words := |Split(content)|;
    if words / 200 < 1 then 1 else words / 200
  }

  /** The slugs the other news rows hold: what `filter(slug=...).exclude(pk=self.pk)` can match. */
  function SlugsOf(rows: map<int, News>, self: Option<int>): (taken: set<string>)
    ensures forall s :: s in taken <==>
      exists k :: k in rows && Some(k) != self && rows[k].data.slug == Some(s)
  {
    set k | k in rows && Some(k) != self && rows[k].data.slug.Some? :: rows[k].data.slug.value
  }

  /**
    The database's unique constraint on `News.slug`: no two rows hold the
    same slug; rows without one (NULL) are exempt.
  */
  ghost predicate UniqueSlugs(rows: map<int, News>)
  {
    forall j, k :: j in rows && k in rows && j != k && rows[j].data.slug.Some? ==>
      rows[j].data.slug != rows[k].data.slug
  }

  /**
    The row `News.save` writes, given the slugs held by the other rows:
    the slug search for an empty slug, the reading time, and the meta
    fields back-filled from the title, excerpt or content.
  */
  function Normalized(n: News, taken: set<string>, slugify: string -> string): News
  {
    var d := n.data;
    var slug := if SlugEmpty(d.slug) then Some(Slugs.FirstFree(slugify(d.title), taken)) else d.slug;
    var metaTitle := if d.metaTitle == "" then Take(d.title, 60) else d.metaTitle;
    var metaDescription :=
      if d.metaDescription != "" then d.metaDescription
      else if d.excerpt != "" then Take(d.excerpt, 160)
      else Take(d.content, 160);
    n.(data := d.(slug := slug, metaTitle := metaTitle, metaDescription := metaDescription),
       readingTime := ReadingTime(d.content))
  }

  /**
    `News.save` before the write: the while loop looks for a free slug
    only when the slug is empty, then the derived fields are set.
  */
  method PrepareSave(n: News, taken: set<string>, slugify: string -> string) returns (saved: News)
    ensures saved == Normalized(n, taken, slugify)
  {
    saved := n;
    if SlugEmpty(n.data.slug) {
      var slug := Slugs.FindFreeSlug(slugify(n.data.title), taken);
      saved := saved.(data := saved.data.(slug := Some(slug)));
    }
    saved := saved.(readingTime := ReadingTime(n.data.content));
    if n.data.metaTitle == "" {
      saved := saved.(data := saved.data.(metaTitle := Take(n.data.title, 60)));
    }
    if n.data.metaDescription == "" && n.data.excerpt != "" {
      saved := saved.(data := saved.data.(metaDescription := Take(n.data.excerpt, 160)));
    } else if n.data.metaDescription == "" {
      saved := saved.(data := saved.data.(metaDescription := Take(n.data.content, 160)));
    }
  }

  /** An empty slug becomes the first of `base`, `base-1`, ... no other row holds. */
  lemma SaveFillsSlug(n: News, taken: set<string>, slugify: string -> string)
    requires SlugEmpty(n.data.slug)
    ensures var s := Normalized(n, taken, slugify).data.slug;
      && s.Some? && s.value !in taken
      && exists k: nat :: s.value == Slugs.Candidate(slugify(n.data.title), k)
                       && forall j: nat :: j < k ==> Slugs.Candidate(slugify(n.data.title), j) in taken
  {
    var k := Slugs.FirstFreeIndex(slugify(n.data.title), taken);
    assert Normalized(n, taken, slugify).data.slug.value == Slugs.Candidate(slugify(n.data.title), k);
  }

  /** A non-empty slug is stored as given, whatever the other rows hold. */
  lemma SaveKeepsSlug(n: News, taken: set<string>, slugify: string -> string)
    requires !SlugEmpty(n.data.slug)
    ensures Normalized(n, taken, slugify).data.slug == n.data.slug
  {
  }

  /** The stored reading time depends on the content alone, never on the old value. */
  lemma SaveReadingTime(n: News, m: News, taken: set<string>, slugify: string -> string)
    requires n.data.content == m.data.content
    ensures Normalized(n, taken, slugify).readingTime == Normalized(m, taken, slugify).readingTime >= 1
  {
  }

  /** An empty meta title is back-filled from the title, cut to 60 characters; a set one is kept. */
  lemma SaveMetaTitle(n: News, taken: set<string>, slugify: string -> string)
    ensures var t := Normalized(n, taken, slugify).data.metaTitle;
      && (n.data.metaTitle != "" ==> t == n.data.metaTitle)
      && (n.data.metaTitle == "" ==> |t| <= 60 && t <= n.data.title
                                      && (|n.data.title| >= 60 ==> |t| == 60)
                                      && (|n.data.title| < 60 ==> t == n.data.title))
  {
  }

  /**
    An empty meta description is back-filled from the excerpt when there is
    one, else from the content, cut to 160 characters; a set one is kept.
  */
  lemma SaveMetaDescription(n: News, taken: set<string>, slugify: string -> string)
    ensures var m := Normalized(n, taken, slugify).data.metaDescription;
      && (n.data.metaDescription != "" ==> m == n.data.metaDescription)
      && (n.data.metaDescription == "" && n.data.excerpt != "" ==>
            && m <= n.data.excerpt
            && (|n.data.excerpt| >= 160 ==> |m| == 160)
            && (|n.data.excerpt| < 160 ==> m == n.data.excerpt))
      && (n.data.metaDescription == "" && n.data.excerpt == "" ==>
            && m <= n.data.content
            && (|n.data.content| >= 160 ==> |m| == 160)
            && (|n.data.content| < 160 ==> m == n.data.content))
  {
  }

  /** Saving changes nothing but the slug, the reading time and the two meta fields. */
  lemma SaveKeepsTheRest(n: News, taken: set<string>, slugify: string -> string)
    ensures var s := Normalized(n, taken, slugify);
      && s.data.title == n.data.title && s.data.content == n.data.content
      && s.data.excerpt == n.data.excerpt && s.data.isPublished == n.data.isPublished
      && s.data.keywords == n.data.keywords
      && s.viewsCount == n.viewsCount && s.likesCount == n.likesCount
      && s.createdAt == n.createdAt && s.createdBy == n.createdBy
  {
  }

  /** Saving a saved row again, against the same other rows, writes the same row. */
  lemma {:induction false} SaveIdempotent(n: News, taken: set<string>, slugify: string -> string)
    ensures Normalized(Normalized(n, taken, slugify), taken, slugify) == Normalized(n, taken, slugify)
  {
    var once := Normalized(n, taken, slugify);
    if SlugEmpty(n.data.slug) {
      var s := Slugs.FirstFree(slugify(n.data.title), taken);
      if s == "" {
        assert slugify(n.data.title) !in taken ==> s == slugify(n.data.title);
        assert Slugs.FirstFreeIndex(slugify(n.data.title), taken) == 0 by {
          var k := Slugs.FirstFreeIndex(slugify(n.data.title), taken);
          assert k > 0 ==> |Slugs.Candidate(slugify(n.data.title), k)| > 0;
        }
      }
    }
    assert Take(once.data.title, 60) == Take(n.data.title, 60);
  }
}
