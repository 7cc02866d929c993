/**
  The admin forms' own cleaning: `EventForm.clean_event_start` and
  `clean_event_end`, `NewsForm.clean_slug`, and the model-form checks the
  portal's views rely on (foreign keys that must name an existing row, the
  unique news slug). Field-level validation of the remaining fields is
  abstracted: a view receives `None` for a form that fails it.
*/
module AdminForms {
  import opened Support
  import opened Models

  const EndBeforeStart := "Event end time must be after the start time."

  /** A cleaned value, or the validation error raised instead. */
  datatype Cleaned<T> = Clean(value: T) | Invalid(message: string)

  /** `clean_event_start` hands the cleaned start back unchanged. */
  function CleanEventStart(start: Option<int>): Option<int>
  {
    start
  }

  /**
    `clean_event_end`: an end strictly before the start is refused; an end
    equal to the start, or a missing end or start, is accepted and the end
    comes back unchanged.
  */
  function CleanEventEnd(start: Option<int>, end: Option<int>): (r: Cleaned<Option<int>>)
    ensures r.Invalid? <==> start.Some? && end.Some? && end.value < start.value
    ensures r.Invalid? ==> r.message == EndBeforeStart
    ensures r.Clean? ==> r.value == end
  {
    if end.Some? && start.Some? && end.value < start.value then Invalid(EndBeforeStart) else Clean(end)
  }

  /** The comparison is strict: an event may end the moment it starts. */
  lemma EndMayEqualStart(t: int)
    ensures CleanEventEnd(Some(t), Some(t)) == Clean(Some(t))
  {
  }

  /**
    `clean_slug`: an empty slug is replaced by `slugify(title)` when there
    is a non-empty title; otherwise the slug comes back as it was.
  */
  function CleanSlug(slug: Option<string>, title: Option<string>, slugify: string -> string): (r: Option<string>)
    ensures !SlugEmpty(slug) ==> r == slug
    ensures SlugEmpty(slug) && title.Some? && title.value != "" ==> r == Some(slugify(title.value))
    ensures SlugEmpty(slug) && (title.None? || title.value == "") ==> r == slug
  {
    if SlugEmpty(slug) && title.Some? && title.value != "" then Some(slugify(title.value)) else slug
  }

  /**
    A news row from the form reaches `News.save` with the slug
    `clean_slug` chose; unless the title slugifies to nothing, that slug is
    non-empty and the save keeps it without searching.
  */
  lemma FormSlugSkipsSearch(n: News, taken: set<string>, slugify: string -> string)
    requires n.data.title != "" && slugify(n.data.title) != ""
    ensures var cleaned := n.(data := n.data.(slug := CleanSlug(n.data.slug, Some(n.data.title), slugify)));
      && !SlugEmpty(cleaned.data.slug)
      && Normalized(cleaned, taken, slugify).data.slug == cleaned.data.slug
  {
  }

  /**
    A title that slugifies to nothing yields the empty slug, and the save
    then searches from the empty base: the first free of `""`, `-1`, `-2`, ...
  */
  lemma EmptySlugifiedTitle(n: News, taken: set<string>, slugify: string -> string)
    requires SlugEmpty(n.data.slug) && n.data.title != "" && slugify(n.data.title) == ""
    ensures var cleaned := n.(data := n.data.(slug := CleanSlug(n.data.slug, Some(n.data.title), slugify)));
      && cleaned.data.slug == Some("")
      && Normalized(cleaned, taken, slugify).data.slug == Some(Slugs.FirstFree("", taken))
  {
  }

  /**
    `NewsForm` as a whole: the slug `clean_slug` chose, which the model's
    unique check then refuses when another row already holds it (a missing
    slug is not checked).
  */
  function NewsFormClean(d: NewsData, otherSlugs: set<string>, slugify: string -> string): (r: Option<NewsData>)
    ensures r.Some? ==> r.value == d.(slug := CleanSlug(d.slug, Some(d.title), slugify))
    ensures r.None? <==> (var s := CleanSlug(d.slug, Some(d.title), slugify); s.Some? && s.value in otherSlugs)
  {
    var s := CleanSlug(d.slug, Some(d.title), slugify);
    if s.Some? && s.value in otherSlugs then None else Some(d.(slug := s))
  }

  /** `EventForm`: both foreign keys name existing rows when set, and `clean_event_end` passes. */
  predicate EventFormValid(d: EventData, districts: set<int>, categories: set<int>)
  {
    && (d.district.Some? ==> d.district.value in districts)
    && (d.category.Some? ==> d.category.value in categories)
    && CleanEventEnd(CleanEventStart(Some(d.start)), d.end).Clean?
  }

  /**
    The start reaches `clean_event_end` unchanged, so an event form passes
    exactly when its links exist and its end, if given, is not before its start.
  */
  lemma EventFormTimes(d: EventData, districts: set<int>, categories: set<int>)
    ensures EventFormValid(d, districts, categories) <==>
      && (d.district.Some? ==> d.district.value in districts)
      && (d.category.Some? ==> d.category.value in categories)
      && !(d.end.Some? && d.end.value < d.start)
  {
  }

  /** `QuestionPaperForm`: the degree and the university exist. */
  predicate QuestionFormValid(d: QuestionData, degrees: set<int>, universities: set<int>)
  {
    d.degree in degrees && d.university in universities
  }

  /** `DegreeForm`: the university exists. */
  predicate DegreeFormValid(d: DegreeData, universities: set<int>)
  {
    d.university in universities
  }

  /** `ExamForm`: the degree and the university exist. */
  predicate ExamFormValid(d: ExamData, degrees: set<int>, universities: set<int>)
  {
    d.degree in degrees && d.university in universities
  }
}
