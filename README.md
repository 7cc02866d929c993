# Kerala Tech Reach portal — a Dafny model of its Django core

Kerala Tech Reach is a Django site with two halves. The `admindashboard`
app is where staff maintain the academic catalogue and the portal content:

- universities, degrees, exams and question papers;
- news, events, the gallery, districts, initiatives and event categories;
- job postings, ad placements and the contact inbox.

Most write views leave one row in the activity log. The `publicpage` app
shows visitors the home page, the search, the events calendar, single
articles, the contact form and the newsletter signup. Around both halves
sit four pieces:

- a security middleware (a per-address rate limiter, security headers and
  an allow-list for the admin paths);
- the `staff_required` decorator and the staff mixin;
- the strong-password rule of the API's user serializer;
- two maintenance programs: data migration 0009, which fills empty news
  slugs, and the `create_missing_profiles` command.

The model does the following:

- A database table is a `Tables.Table<T>` object: a `map<int, T>` of rows
  plus the next primary key. Views mutate it through `modifies` clauses.
- The activity log is the `ActivityLogs.ActivityLog` object, which only
  appends.
- Each view is a method. Its contract ties the new table state and its
  response to a pure step function:
  - `Crud.CreateStep`, `Crud.EditStep` and `Crud.DeleteStep` give the shared
    shape: the login check, `get_object_or_404`, the POST-only branch, the
    form check, and the single row written or removed;
  - `Crud.Logged` gives the log row that is appended.
- Listings are specified by what they contain (every row exactly once)
  and by their order. Pagination follows Django's `Paginator.get_page`.
- Queryset slices are Python's `s[:n]`.
- Slug generation (`News.save`, the migration) is one verified `while` loop
  with a pigeonhole argument for why it stops.

Datetimes are integer ticks and `DateField`s are integer days. The
current time (`timezone.now()`, `time.time()`) is a parameter, and so is
each of these:

- Django's `slugify`;
- `icontains`;
- `strftime('%B %Y')`;
- Django's own `validate_password`;
- the `str.isupper`, `str.islower` and `str.isdigit` tests.

A form is given already bound. It is `None` when Django's field
validation rejects it, otherwise the cleaned data. The checks that
appear in the code around the form are modelled:

- `clean_event_end`;
- `clean_slug`;
- the existence of the key that a choice field names;
- the unique constraint on news slugs.

Source paths below are relative to the repository root.

## Model

| member | source | states |
|---|---|---|
| Http.BeforeComma | keralatechreach_django/admindashboard/middleware.py:33 | the result is the longest comma-free prefix of the header: a prefix, no comma in it, and followed by a comma when shorter than the input |
| Http.ClientIp | keralatechreach_django/admindashboard/middleware.py:30-36 | a non-empty `X-Forwarded-For` gives its text before the first comma, otherwise `REMOTE_ADDR` (possibly missing) |
| Http.ForwardedPrefix | keralatechreach_django/admindashboard/middleware.py:31-33 | a forwarded address wins over `REMOTE_ADDR` and is a comma-free prefix of the header |
| Http.BeforeCommaAt | keralatechreach_django/admindashboard/middleware.py:33 | the position of the first comma (or the end) determines the split result uniquely |
| Http.ClientIpLeftmost | keralatechreach_django/admindashboard/middleware.py:31-33 | a proxy chain gives its leftmost entry, whatever follows the first comma |
| Http.ClientIpUntrimmed | keralatechreach_django/admindashboard/middleware.py:33 | a single forwarded entry with a leading space is returned whole, space included |
| Http.ClientIpEmptyHeader | keralatechreach_django/admindashboard/middleware.py:32-35 | an empty forwarded header falls back to `REMOTE_ADDR` |
| Middleware.CacheKey | keralatechreach_django/admindashboard/middleware.py:47 | the key starts with `rate_limit_` |
| Middleware.CacheKeyInjective | keralatechreach_django/admindashboard/middleware.py:47 | two addresses never share a request history |
| Middleware.Recent | keralatechreach_django/admindashboard/middleware.py:53 | keeps exactly the timestamps newer than 60 seconds before now, never more than stored |
| Middleware.Recorded | keralatechreach_django/admindashboard/middleware.py:53-56 | the stored history is the recent timestamps with the current request appended last |
| Middleware.LimitedIff | keralatechreach_django/admindashboard/middleware.py:62 | a request is refused exactly when at least 100 earlier requests lie inside the window |
| Middleware.ExpiredHistoryIgnored | keralatechreach_django/admindashboard/middleware.py:53 | a history older than the window acts as an empty one |
| Middleware.BurstRemembered | keralatechreach_django/admindashboard/middleware.py:50-59 | in a burst inside one window every request is remembered |
| Middleware.BurstRefused | keralatechreach_django/admindashboard/middleware.py:38-62 | in such a burst the first 100 requests pass and the 101st and later ones are refused |
| Middleware.RateLimitCache.IsRateLimited | keralatechreach_django/admindashboard/middleware.py:38-62 | writes back exactly that address's recorded history and answers whether the old history was over the limit; other keys unchanged |
| Middleware.Join | keralatechreach_django/admindashboard/middleware.py:78 | joining no parts is empty and joining one part is that part |
| Middleware.JoinSnoc | keralatechreach_django/admindashboard/middleware.py:78 | joining one part more appends the separator and that part |
| Middleware.JoinStartsWithFirst | keralatechreach_django/admindashboard/middleware.py:78 | a join of at least one part begins with the first part |
| Middleware.CspPolicyStartsWithDefault | keralatechreach_django/admindashboard/middleware.py:64-78 | the Content-Security-Policy value begins with the `default-src 'self'` directive |
| Middleware.WithSecurityHeaders | keralatechreach_django/admindashboard/middleware.py:19-26 | the outcome is kept, all seven security headers get their values, and every other header is kept |
| Middleware.SecurityCall | keralatechreach_django/admindashboard/middleware.py:10-28 | static and media paths skip the limiter; otherwise a limited address gets the 403 text and the handler is not consulted, and a passing one gets the handler's response with the headers |
| Middleware.AdminRestriction | keralatechreach_django/admindashboard/middleware.py:84-93 | on admin paths with a non-empty allow-list an address outside it gets 403 "Access denied"; every other request reaches the handler |
| Middleware.AdminPasses | keralatechreach_django/admindashboard/middleware.py:86-90 | an empty allow-list, a listed address or a non-admin path passes |
| Decorators.StaffRequired | keralatechreach_django/admindashboard/decorators.py:6-15 | anonymous users go to the login page and non-staff users to the dashboard; staff get the view's answer |
| Decorators.ViewReachedOnlyByStaff | keralatechreach_django/admindashboard/decorators.py:9-15 | the answer can depend on the view only for staff |
| Mixins.StaffDispatch | keralatechreach_django/admindashboard/mixins.py:6-12 | authenticated staff reach the view; anyone else gets PermissionDenied |
| Mixins.MixinAgreesWithDecorator | keralatechreach_django/admindashboard/mixins.py:6-12 | the mixin and the decorator admit the same users and refuse them differently |
| Mixins.NewObjectLoggedAsUpdated | keralatechreach_django/admindashboard/mixins.py:16-18 | as written, a new object is labelled "Updated" |
| Mixins.Label | keralatechreach_django/admindashboard/mixins.py:18 | "Created" exactly for new objects and "Updated" exactly for existing ones |
| Mixins.FormValid | keralatechreach_django/admindashboard/mixins.py:15-28 | the object is inserted or updated; with an object one row is logged with the intended label, otherwise nothing; an anonymous log write ends in a server error after the save |
| Mixins.Delete | keralatechreach_django/admindashboard/mixins.py:30-43 | 404 for a missing key; otherwise the row goes, and the log row carries the description taken before the delete |
| Passwords.Any | keralatechreach_django/api/serializers/auth.py:19-25 | true exactly when some character passes |
| Passwords.FirstFailure | keralatechreach_django/api/serializers/auth.py:17-26 | none exactly when all five checks pass; otherwise the message of the first failing one |
| Passwords.ValidatePassword | keralatechreach_django/api/serializers/auth.py:14-27 | Django's own errors win over the custom checks, and an accepted value comes back unchanged |
| Passwords.AcceptedIff | keralatechreach_django/api/serializers/auth.py:14-27 | accepted exactly when Django's validators and all five checks pass |
| Passwords.FirstFailingCheckDecides | keralatechreach_django/api/serializers/auth.py:17-26 | each check's message is reported only when every earlier check has passed |
| Passwords.RejectionMessages | keralatechreach_django/api/serializers/auth.py:15-26 | a rejection carries Django's list or exactly one policy message |
| Passwords.AsciiAccepted | keralatechreach_django/api/serializers/auth.py:17-27 | `Kerala2024!` is accepted |
| Passwords.AsciiNoUpper | keralatechreach_django/api/serializers/auth.py:19-20 | a password without a capital letter is refused with the uppercase message |
| Passwords.AsciiTooShort | keralatechreach_django/api/serializers/auth.py:17-18 | a four-character password is refused with the length message only |
| Models.NewProfile | keralatechreach_django/admindashboard/models.py:191-207 | email and the three flags are copied from the user; every other field takes its default |
| Models.ProfileTable.Create | keralatechreach_django/admindashboard/models.py:192 | inserts the profile of a user that has none; a second profile for a user violates the one-to-one key and changes nothing |
| Models.ProfileTable.OnUserSaved | keralatechreach_django/admindashboard/models.py:213-222 | a creating save inserts exactly the user's new profile; any other save inserts nothing |
| Models.LeadingWord | keralatechreach_django/admindashboard/models.py:143 | the longest whitespace-free prefix |
| Models.Split | keralatechreach_django/admindashboard/models.py:143 | every word is non-empty and contains no whitespace |
| Models.SplitKeepsText | keralatechreach_django/admindashboard/models.py:143 | for every text, the words written one after the other are exactly its characters other than whitespace, in order |
| Models.SplitCount | keralatechreach_django/admindashboard/models.py:143 | for every text, the number of words is the number of places where a word ends: a character other than whitespace followed by whitespace or by the end of the text |
| Models.LeadingWordOf | keralatechreach_django/admindashboard/models.py:143 | the leading word of a word followed by a space is that word |
| Models.SplitJoin | keralatechreach_django/admindashboard/models.py:143 | splitting words joined by single spaces gives the words back |
| Models.ReadingTime | keralatechreach_django/admindashboard/models.py:143-144 | at least one minute; from 200 words on, the word count divided by 200 rounded down; under 400 words, one minute |
| Models.SlugsOf | keralatechreach_django/admindashboard/models.py:137 | exactly the slugs held by the other rows |
| Models.PrepareSave | keralatechreach_django/admindashboard/models.py:130-154 | the row written is the normalised row: slug search only for an empty slug, then reading time and the meta fields |
| Models.SaveFillsSlug | keralatechreach_django/admindashboard/models.py:132-140 | an empty slug becomes the first of `base`, `base-1`, … that no other row holds |
| Models.SaveKeepsSlug | keralatechreach_django/admindashboard/models.py:132 | a non-empty slug is stored as given, even if another row holds it |
| Models.SaveReadingTime | keralatechreach_django/admindashboard/models.py:143-144 | the reading time depends only on the content |
| Models.SaveMetaTitle | keralatechreach_django/admindashboard/models.py:147-148 | an empty meta title is the title cut to 60 characters; a set one is kept |
| Models.SaveMetaDescription | keralatechreach_django/admindashboard/models.py:149-152 | an empty meta description becomes the excerpt when there is one, else the content: the whole text when shorter than 160, otherwise its first 160 characters; a set one is kept |
| Models.SaveKeepsTheRest | keralatechreach_django/admindashboard/models.py:130-154 | nothing but the slug, reading time and meta fields changes |
| Models.SaveIdempotent | keralatechreach_django/admindashboard/models.py:130-154 | saving a saved row again writes the same row |
| Slugs.Digit | keralatechreach_django/admindashboard/models.py:138 | a decimal digit character |
| Slugs.NatToString | keralatechreach_django/admindashboard/models.py:138 | non-empty decimal text without a leading zero |
| Slugs.NatToStringInjective | keralatechreach_django/admindashboard/models.py:138 | different counters print differently |
| Slugs.Candidate | keralatechreach_django/admindashboard/models.py:134-139 | candidate 0 is the base and candidate k is `base-k` |
| Slugs.CandidateInjective | keralatechreach_django/admindashboard/models.py:137-139 | no two tries give the same slug |
| Slugs.Pigeonhole | keralatechreach_django/admindashboard/models.py:137-139 | if the first k candidates are all taken, at least k slugs are taken; so the search stops |
| Slugs.FirstFreeIndex | keralatechreach_django/admindashboard/models.py:137-139 | the first free candidate: free, every earlier one taken, and no later than the number of taken slugs |
| Slugs.FirstFree | keralatechreach_django/admindashboard/models.py:137-140 | the chosen slug is free |
| Slugs.FirstFreeUnique | keralatechreach_django/admindashboard/models.py:137-139 | a free index with all earlier ones taken is the first free index |
| Slugs.FindFreeSlug | keralatechreach_django/admindashboard/models.py:133-140 | the loop ends on the first free candidate |
| SlugMigration.MigrateRow | keralatechreach_django/admindashboard/migrations/0009_update_news_slugs.py:7-15 | one step keeps the key set |
| SlugMigration.Migrated | keralatechreach_django/admindashboard/migrations/0009_update_news_slugs.py:6-15 | the rows after the listed steps, same keys |
| SlugMigration.GenerateSlugs | keralatechreach_django/admindashboard/migrations/0009_update_news_slugs.py:4-15 | the loop leaves the table equal to the step-by-step migration and keeps the key counter |
| SlugMigration.MigrateRowOnly | keralatechreach_django/admindashboard/migrations/0009_update_news_slugs.py:7-15 | one step touches only its own row, and never a row with a slug |
| SlugMigration.MigrateRowFresh | keralatechreach_django/admindashboard/migrations/0009_update_news_slugs.py:11-14 | the slug assigned is held by no row, not even its own |
| SlugMigration.MigrateRowUnique | keralatechreach_django/admindashboard/migrations/0009_update_news_slugs.py:11-15 | each step keeps slugs unique |
| SlugMigration.MigratedUnique | keralatechreach_django/admindashboard/migrations/0009_update_news_slugs.py:6-15 | the migration keeps slugs unique |
| SlugMigration.MigratedKeepsFilled | keralatechreach_django/admindashboard/migrations/0009_update_news_slugs.py:7 | a row that had a slug is untouched |
| SlugMigration.MigratedKeepsUnlisted | keralatechreach_django/admindashboard/migrations/0009_update_news_slugs.py:6 | rows not visited are untouched |
| SlugMigration.MigratedStep | keralatechreach_django/admindashboard/migrations/0009_update_news_slugs.py:7-15 | a slugless row gets the first candidate free at its turn, earlier assignments included |
| SlugMigration.SecondRunKeepsFilled | keralatechreach_django/admindashboard/migrations/0009_update_news_slugs.py:7 | rerunning leaves every row the first run filled |
| SlugMigration.SelfNotExcluded | keralatechreach_django/admindashboard/migrations/0009_update_news_slugs.py:11 | a row with slug `""` whose title slugifies to `""` gets `-1` here, while `News.save` keeps `""` |
| AdminForms.EventFormTimes | keralatechreach_django/admindashboard/forms.py:117-130 | `clean_event_start` hands the start on unchanged, so an event form is valid exactly when its district and category exist and its end, if given, is not before its start |
| AdminForms.CleanEventEnd | keralatechreach_django/admindashboard/forms.py:122-130 | refused exactly when both are set and the end is before the start; otherwise the end is unchanged |
| AdminForms.EndMayEqualStart | keralatechreach_django/admindashboard/forms.py:127 | an end equal to the start is accepted |
| AdminForms.CleanSlug | keralatechreach_django/admindashboard/forms.py:201-207 | an empty slug with a non-empty title becomes the slugified title; otherwise the slug is unchanged |
| AdminForms.FormSlugSkipsSearch | keralatechreach_django/admindashboard/forms.py:201-207 | unless the title slugifies to nothing, the save keeps the form's slug without a search |
| AdminForms.EmptySlugifiedTitle | keralatechreach_django/admindashboard/forms.py:201-207 | a title slugifying to nothing leaves the save searching from the empty base |
| AdminForms.NewsFormClean | keralatechreach_django/admindashboard/forms.py:149-207 | the form is refused exactly when its cleaned slug is set and held by another row |
| ActivityLogs.LogIp | keralatechreach_django/admindashboard/views/activity_log.py:29-35 | the client address of the request, none without one |
| ActivityLogs.ActivityLog.LogActivity | keralatechreach_django/admindashboard/views/activity_log.py:25-42 | exactly one new row at the end with the given user, action, details and address |
| ActivityLogs.Visible | keralatechreach_django/admindashboard/views/activity_log.py:8-13 | staff see every row; anyone else sees exactly their own rows |
| ActivityLogs.ActivityLogView | keralatechreach_django/admindashboard/views/activity_log.py:6-23 | anonymous users go to the login page; others get the requested page of 20 of their visible rows, newest first |
| ActivityLogs.ViewShowsOnlyVisible | keralatechreach_django/admindashboard/views/activity_log.py:8-13 | a non-staff page holds only the user's own rows |
| ActivityLogs.ViewNewestFirst | keralatechreach_django/admindashboard/models.py:236-237 | every page is newest first |
| ActivityLogs.ViewComplete | keralatechreach_django/admindashboard/views/activity_log.py:15-17 | every visible row is on one of the pages |
| Support.Take | keralatechreach_django/publicpage/views.py:32 | the first n elements, or all when fewer |
| Support.Filter | keralatechreach_django/publicpage/views.py:29-31 | no longer than the input, and holding exactly the input's elements that pass |
| Support.FilterSingleton | keralatechreach_django/publicpage/views.py:29-31 | one element is kept exactly when it passes; with `FilterAppend` this fixes the order and multiplicity of every filter |
| Support.FilterAppend | keralatechreach_django/publicpage/views.py:29-31 | filtering a concatenation is the concatenation of the filtered parts, so the passing elements keep their order |
| Support.FilterAll | keralatechreach_django/publicpage/views.py:29-31 | a filter every element passes leaves the sequence unchanged |
| Support.FilterNone | keralatechreach_django/publicpage/views.py:29-31 | a filter no element passes leaves nothing |
| Support.FirstWhere | keralatechreach_django/publicpage/views.py:85-89 | none exactly when nothing passes; otherwise the first passing position |
| Support.SortBy | keralatechreach_django/admindashboard/models.py:125 | a permutation of the input |
| Support.Listing | keralatechreach_django/admindashboard/models.py:125 | every row once |
| Support.NumPages | keralatechreach_django/admindashboard/views/activity_log.py:15 | at least one page, and just enough pages for every item |
| Support.PageNumber | keralatechreach_django/admindashboard/views/activity_log.py:16-17 | a valid page number: the one requested when it is valid, page 1 when none was requested, and the last page for a number below 1 or past the end, as `get_page` does on `EmptyPage` |
| Support.PageBounds | keralatechreach_django/admindashboard/views/activity_log.py:15-17 | a page starts inside the items; every page but the last is full |
| Support.GetPage | keralatechreach_django/admindashboard/views/activity_log.py:15-17 | the page is the slice at its offset, full except on the last page |
| Support.PageHolds | keralatechreach_django/admindashboard/views/activity_log.py:15-17 | item i is on page i / per_page + 1 |
| Tables.Table.Insert | keralatechreach_django/admindashboard/views/content.py:33 | the row is stored at the next key, which then advances |
| Tables.Table.Update | keralatechreach_django/admindashboard/views/content.py:60 | only that row changes |
| Tables.Table.Remove | keralatechreach_django/admindashboard/views/content.py:79 | only that key goes |
| Tables.Table.Replace | keralatechreach_django/admindashboard/models.py:93-94 | every row is replaced, same keys |
| Tables.Without | keralatechreach_django/admindashboard/models.py:11 | exactly the rows whose key is not removed |
| Tables.KeysWhere | keralatechreach_django/admindashboard/views/contact_messages.py:12 | exactly the keys whose rows pass |
| Tables.MapRows | keralatechreach_django/admindashboard/models.py:93-94 | same keys, each row transformed |
| Crud.CreateStep | keralatechreach_django/admindashboard/views/content.py:19-45 | a row is saved exactly for a logged-in POST with a valid form and a profile, at the next key; otherwise login page, form page or server error, and nothing changes |
| Crud.EditStep | keralatechreach_django/admindashboard/views/content.py:48-68 | the row is saved exactly for a logged-in POST on an existing key with a valid form; 404 for a missing key; nothing else changes |
| Crud.DeleteStep | keralatechreach_django/admindashboard/views/content.py:71-84 | the row is removed exactly for a logged-in POST on an existing key; 404 for a missing key; otherwise a confirmation page |
| Crud.DeleteOnlyThatRow | keralatechreach_django/admindashboard/views/content.py:77-79 | a delete leaves every other row as it was |
| Crud.Logged | keralatechreach_django/admindashboard/views/content.py:35-40 | one log row exactly when a row was written by a member, naming user, action, details and client address |
| Crud.ListDescending | keralatechreach_django/admindashboard/views/content.py:10-16 | login page for anonymous users, else every row once, largest key first |
| Crud.ListAlphabetical | keralatechreach_django/admindashboard/views/content.py:217-219 | every row once, by name |
| Crud.ListByPk | keralatechreach_django/admindashboard/views/academic.py:82-84 | every row once, by primary key |
| Crud.Create | keralatechreach_django/admindashboard/views/content.py:19-45 | the table ends as `CreateStep` says and the saved row is reported |
| Crud.Edit | keralatechreach_django/admindashboard/views/content.py:48-68 | the table ends as `EditStep` says |
| Crud.Delete | keralatechreach_django/admindashboard/views/content.py:71-84 | the table ends as `DeleteStep` says, and the removed row is reported |
| ContentViews.NewsList | keralatechreach_django/admindashboard/views/content.py:10-16 | every article once, newest `created_at` first |
| ContentViews.NewsCreate | keralatechreach_django/admindashboard/views/content.py:19-45 | the create step with the normalised article, and its log row |
| ContentViews.NewsEdit | keralatechreach_django/admindashboard/views/content.py:48-68 | the edit step with the form applied and the article normalised, and its log row |
| ContentViews.NewsDelete | keralatechreach_django/admindashboard/views/content.py:71-84 | the POST-only delete step, and its log row |
| ContentViews.NewsCreateRecorded | keralatechreach_django/admindashboard/views/content.py:19-45 | a valid form from a user with a profile adds one article by that user with zero counters and one log row; anything else adds and logs nothing |
| ContentViews.WriteKeepsUnique | keralatechreach_django/admindashboard/models.py:103 | writing a row whose slug no other row holds keeps slugs unique |
| ContentViews.FormSaveSlugFree | keralatechreach_django/admindashboard/models.py:130-140 | the slug a form save stores is set and free |
| ContentViews.NewsWritesKeepSlugsUnique | keralatechreach_django/admindashboard/views/content.py:19-68 | creating and editing articles keeps slugs unique |
| ContentViews.EventList | keralatechreach_django/admindashboard/views/content.py:88-94 | every event once, latest start first |
| ContentViews.EventCreate | keralatechreach_django/admindashboard/views/content.py:97-122 | the create step, with its log row |
| ContentViews.EventEdit | keralatechreach_django/admindashboard/views/content.py:125-150 | the edit step, with its log row |
| ContentViews.EventDelete | keralatechreach_django/admindashboard/views/content.py:153-166 | the POST-only delete step, with its log row |
| ContentViews.EventWritesKeepLinks | keralatechreach_django/admindashboard/forms.py:116-147 | a form naming a missing district or category, or ending before its start, is refused; links stay valid |
| ContentViews.GalleryList | keralatechreach_django/admindashboard/views/content.py:170-172 | every item once, newest first |
| ContentViews.GalleryCreate | keralatechreach_django/admindashboard/views/content.py:175-189 | the create step; no log row |
| ContentViews.GalleryEdit | keralatechreach_django/admindashboard/views/content.py:192-205 | the edit step; no log row |
| ContentViews.GalleryDelete | keralatechreach_django/admindashboard/views/content.py:208-214 | the delete step; no log row |
| ContentViews.GalleryEditKeepsOrigin | keralatechreach_django/admindashboard/views/content.py:192-205 | an edit keeps the creation time and creator |
| ContentViews.DistrictList | keralatechreach_django/admindashboard/views/content.py:217-219 | every district once, by name |
| ContentViews.ClearDistrict | keralatechreach_django/admindashboard/models.py:93 | events naming the district lose it, nothing else about any event changes |
| ContentViews.DistrictCreate | keralatechreach_django/admindashboard/views/content.py:222-236 | the create step; no log row |
| ContentViews.DistrictEdit | keralatechreach_django/admindashboard/views/content.py:239-253 | the edit step; no log row |
| ContentViews.DistrictDelete | keralatechreach_django/admindashboard/views/content.py:256-262 | the delete step, and its events cleared when the row goes |
| ContentViews.DistrictDeleteKeepsLinks | keralatechreach_django/admindashboard/models.py:93 | after the delete every event's links are valid |
| ContentViews.InitiativeList | keralatechreach_django/admindashboard/views/content.py:265-267 | every initiative once, most recently saved first |
| ContentViews.InitiativeCreate | keralatechreach_django/admindashboard/views/content.py:270-284 | the create step; no log row |
| ContentViews.InitiativeEdit | keralatechreach_django/admindashboard/views/content.py:287-301 | the edit step, stamping the save time; no log row |
| ContentViews.InitiativeDelete | keralatechreach_django/admindashboard/views/content.py:304-310 | the delete step; no log row |
| ContentViews.InitiativeEditMovesFirst | keralatechreach_django/admindashboard/views/content.py:287-301 | an edited initiative has the latest save time |
| ContentViews.CategoryList | keralatechreach_django/admindashboard/views/content.py:314-316 | every category once, by name |
| ContentViews.ClearCategory | keralatechreach_django/admindashboard/models.py:94 | events naming the category lose it, nothing else changes |
| ContentViews.CategoryCreate | keralatechreach_django/admindashboard/views/content.py:319-339 | the create step, with its log row |
| ContentViews.CategoryEdit | keralatechreach_django/admindashboard/views/content.py:342-362 | the edit step, with its log row |
| ContentViews.CategoryDelete | keralatechreach_django/admindashboard/views/content.py:365-377 | the delete step with its events cleared, and its log row |
| ContentViews.CategoryDeleteKeepsLinks | keralatechreach_django/admindashboard/models.py:94 | after the delete every event's links are valid |
| ContentViews.CategoryDeleteNamesRemoved | keralatechreach_django/admindashboard/views/content.py:365-377 | the log row names the category as it was before the delete |
| AcademicViews.QuestionList | keralatechreach_django/admindashboard/views/academic.py:10-16 | every paper once, most recently saved first |
| AcademicViews.QuestionCreate | keralatechreach_django/admindashboard/views/academic.py:19-41 | the create step, with its log row |
| AcademicViews.QuestionEdit | keralatechreach_django/admindashboard/views/academic.py:43-64 | the edit step, with its log row |
| AcademicViews.QuestionDelete | keralatechreach_django/admindashboard/views/academic.py:67-78 | the delete step for any method, with its log row |
| AcademicViews.QuestionDeleteOnGet | keralatechreach_django/admindashboard/views/academic.py:67-78 | a GET deletes the paper and logs its subject and degree as they were |
| AcademicViews.UniversityList | keralatechreach_django/admindashboard/views/academic.py:82-84 | every university once; the order, which the database leaves open, is taken to be key order |
| AcademicViews.DegreesOf | keralatechreach_django/admindashboard/models.py:32 | exactly the degrees of that university |
| AcademicViews.WithoutUniversity | keralatechreach_django/admindashboard/models.py:11-44 | the cascade removes the university's degrees, and the exams and papers of it or its degrees; everything else stays |
| AcademicViews.UniversityCreate | keralatechreach_django/admindashboard/views/academic.py:87-107 | the create step, with its log row |
| AcademicViews.UniversityEdit | keralatechreach_django/admindashboard/views/academic.py:110-129 | the edit step, with its log row |
| AcademicViews.UniversityDelete | keralatechreach_django/admindashboard/views/academic.py:132-145 | the delete step and its cascade, with its log row |
| AcademicViews.UniversityDeleteKeepsLinks | keralatechreach_django/admindashboard/models.py:11-44 | after the cascade every remaining link is valid |
| AcademicViews.DegreeList | keralatechreach_django/admindashboard/views/academic.py:149-151 | every degree once; the order, which the database leaves open, is taken to be key order |
| AcademicViews.WithoutDegree | keralatechreach_django/admindashboard/models.py:11-41 | the cascade removes exactly the degree's exams and papers |
| AcademicViews.DegreeCreate | keralatechreach_django/admindashboard/views/academic.py:154-168 | the create step; no log row |
| AcademicViews.DegreeEdit | keralatechreach_django/admindashboard/views/academic.py:171-184 | the edit step; no log row |
| AcademicViews.DegreeDelete | keralatechreach_django/admindashboard/views/academic.py:187-193 | the delete step and its cascade; no log row |
| AcademicViews.DegreeDeleteKeepsLinks | keralatechreach_django/admindashboard/models.py:11-41 | after the cascade every remaining link is valid |
| AcademicViews.ExamList | keralatechreach_django/admindashboard/views/academic.py:197-199 | every exam once, latest exam date first |
| AcademicViews.ExamCreate | keralatechreach_django/admindashboard/views/academic.py:202-222 | the create step, with its log row |
| AcademicViews.ExamEdit | keralatechreach_django/admindashboard/views/academic.py:225-244 | the edit step, with its log row |
| AcademicViews.ExamDelete | keralatechreach_django/admindashboard/views/academic.py:247-259 | the POST-only delete step, with its log row |
| AcademicViews.DegreeWritesKeepLinks | keralatechreach_django/admindashboard/forms.py:33-41 | degree writes keep every link valid, as the form only offers stored universities |
| AcademicViews.ExamWritesKeepLinks | keralatechreach_django/admindashboard/forms.py:42-60 | exam writes keep every link valid |
| AcademicViews.QuestionWritesKeepLinks | keralatechreach_django/admindashboard/forms.py:11-24 | question paper writes keep every link valid |
| JobViews.JobList | keralatechreach_django/admindashboard/views/jobs.py:8-11 | every posting once, most recently saved first |
| JobViews.JobCreate | keralatechreach_django/admindashboard/views/jobs.py:13-34 | the create step, with its log row |
| JobViews.JobEdit | keralatechreach_django/admindashboard/views/jobs.py:36-57 | the edit step with the save time, and its log row |
| JobViews.JobDelete | keralatechreach_django/admindashboard/views/jobs.py:59-73 | the POST-only delete step, and its log row |
| JobViews.JobCreateRecorded | keralatechreach_django/admindashboard/views/jobs.py:13-34 | a valid form from a user with a profile stores one posting by that user and one log row naming its title |
| JobViews.JobDeleteOnlyOnPost | keralatechreach_django/admindashboard/views/jobs.py:59-73 | a POST removes only the posting and logs its old title; a GET changes nothing |
| AdViews.LocationRank | keralatechreach_django/admindashboard/models.py:355-373 | a location's place among the five stored codes |
| AdViews.LocationRankIsCodeOrder | keralatechreach_django/admindashboard/models.py:373 | rank order is the code-point order of the stored codes, and distinct locations have distinct codes |
| AdViews.LexLeDecided | keralatechreach_django/admindashboard/models.py:373 | strings equal before one position and different there compare by that character |
| AdViews.AdOrderIsTotalPreorder | keralatechreach_django/admindashboard/models.py:373 | the model ordering is total and transitive |
| AdViews.AdOrderMeaning | keralatechreach_django/admindashboard/models.py:373 | by location first, then newest first within a location |
| AdViews.AdsOrdered | keralatechreach_django/admindashboard/models.py:373 | every ad once, by location code, newest first within a location |
| AdViews.AdList | keralatechreach_django/admindashboard/views/ads.py:8-11 | login page for anonymous users, else the model order |
| AdViews.FirstActive | keralatechreach_django/publicpage/views.py:85-89 | none exactly when no active ad has the location; otherwise an active ad there, no older than any other |
| AdViews.FirstActiveNone | keralatechreach_django/publicpage/views.py:85-89 | no first ad exactly when no active ad exists there |
| AdViews.FirstActiveSome | keralatechreach_django/publicpage/views.py:85-89 | the first ad is active there and the newest such |
| AdViews.NotShownInOrder | keralatechreach_django/publicpage/views.py:85-89 | no position shown means no ad shown |
| AdViews.FirstShownNewest | keralatechreach_django/admindashboard/models.py:373 | the first shown position is at least as new as every ad shown there |
| AdViews.AdCreate | keralatechreach_django/admindashboard/views/ads.py:13-34 | the create step, with its log row |
| AdViews.AdEdit | keralatechreach_django/admindashboard/views/ads.py:36-57 | the edit step, with its log row |
| AdViews.AdDelete | keralatechreach_django/admindashboard/views/ads.py:59-73 | the POST-only delete step, and its log row |
| AdViews.AdCreateRecorded | keralatechreach_django/admindashboard/views/ads.py:13-34 | a valid form stores one ad by the user and logs its name; an invalid one stores and logs nothing |
| AdViews.AdEditKeepsOrigin | keralatechreach_django/admindashboard/views/ads.py:36-57 | an edit keeps the creation stamp and creator |
| AdViews.AdDeleteOnlyOnPost | keralatechreach_django/admindashboard/views/ads.py:59-73 | a POST removes only the ad and logs its old name; a GET changes nothing |
| ContactMessageViews.Unread | keralatechreach_django/admindashboard/views/contact_messages.py:12 | exactly the keys of messages not read |
| ContactMessageViews.ContactList | keralatechreach_django/admindashboard/views/contact_messages.py:7-20 | the requested page of ten, newest first, and the unread count over all messages |
| ContactMessageViews.MarkRead | keralatechreach_django/admindashboard/views/contact_messages.py:25-28 | that message's flag set, everything else unchanged |
| ContactMessageViews.ContactDetail | keralatechreach_django/admindashboard/views/contact_messages.py:22-33 | 404 for an unknown key; otherwise the message is marked read and the page shown; the log is untouched |
| ContactMessageViews.ContactDelete | keralatechreach_django/admindashboard/views/contact_messages.py:35-46 | the POST-only delete step, not logged |
| ContactMessageViews.MarkReadUnread | keralatechreach_django/admindashboard/views/contact_messages.py:25-28 | reading removes exactly that message from the unread set |
| ContactMessageViews.MarkReadIdempotent | keralatechreach_django/admindashboard/views/contact_messages.py:25-28 | reading twice changes nothing more |
| ContactMessageViews.DeleteUnread | keralatechreach_django/admindashboard/views/contact_messages.py:35-46 | a delete lowers the unread count by one exactly when it was unread |
| ContactMessageViews.EveryMessagePaged | keralatechreach_django/admindashboard/views/contact_messages.py:9-11 | every message is on the page its position selects |
| PublicViews.Selected | keralatechreach_django/publicpage/views.py:29-32 | every passing row once, by ascending key |
| PublicViews.Top | keralatechreach_django/publicpage/views.py:29-32 | at most n passing rows in key order, and any passing row left out comes no earlier than all shown |
| PublicViews.TopHolds | keralatechreach_django/publicpage/views.py:29-32 | the slice meets that description |
| PublicViews.InPrefix | keralatechreach_django/publicpage/views.py:32 | a position inside the slice holds a member of it |
| PublicViews.LeftOutComesLater | keralatechreach_django/publicpage/views.py:32 | an element cut off sits after every element kept |
| PublicViews.Home | keralatechreach_django/publicpage/views.py:18-65 | logged-in users are redirected; others get the seven filtered, ordered lists capped at 3, 3, 2, 4, 4, 3, 5 |
| PublicViews.HomeResponse | keralatechreach_django/publicpage/views.py:19-20 | logged-in users go to the dashboard, others get the home template |
| PublicViews.HomeEvents | keralatechreach_django/publicpage/views.py:29-32 | at most three published upcoming events, soonest first; one left out only when three no later are shown |
| PublicViews.UpcomingShown | keralatechreach_django/publicpage/views.py:29-32 | a slice meeting the top-three description holds at most three published upcoming events, soonest first |
| PublicViews.UpcomingMissing | keralatechreach_django/publicpage/views.py:29-32 | in such a slice an upcoming event is left out only behind three no later |
| PublicViews.Search | keralatechreach_django/publicpage/views.py:111-162 | no query finds nothing; otherwise each list is its top five hits, and the total counts all hits |
| PublicViews.TopSize | keralatechreach_django/publicpage/views.py:154-158 | a slice has at most n rows and is complete when short |
| PublicViews.SearchCapped | keralatechreach_django/publicpage/views.py:154-159 | every list has at most five rows and the total is no less than shown |
| PublicViews.SearchSizes | keralatechreach_django/publicpage/views.py:154-159 | five lists cut to five from their querysets show at most five each, no more than the hit total, and all of it when none is full |
| PublicViews.SearchTotalIsShownWhenFew | keralatechreach_django/publicpage/views.py:154-159 | when no list is full the total is exactly what is shown |
| PublicViews.SearchFindsEvent | keralatechreach_django/publicpage/views.py:117-121 | a matching published upcoming event is shown unless five earlier fill the list |
| PublicViews.MonthsOf | keralatechreach_django/publicpage/views.py:179-184 | each month once, and a month appears exactly when an event falls in it |
| PublicViews.GroupByMonth | keralatechreach_django/publicpage/views.py:179-184 | keys are the months in first-seen order and each group is exactly its month's events in order |
| PublicViews.NoEventOfMonth | keralatechreach_django/publicpage/views.py:182 | a month not yet a key has no event so far |
| PublicViews.UpcomingEvents | keralatechreach_django/publicpage/views.py:168-171 | exactly the upcoming published events, in start order |
| PublicViews.EventsList | keralatechreach_django/publicpage/views.py:164-191 | the page of ten upcoming events and the month groups of all of them |
| PublicViews.EventsGroupedOnce | keralatechreach_django/publicpage/views.py:179-184 | each upcoming event is in its own month's group and no other |
| PublicViews.InFilter | keralatechreach_django/publicpage/views.py:168-171 | an element is in a filter exactly when it is in the input and passes |
| PublicViews.GroupsKeepStartOrder | keralatechreach_django/publicpage/views.py:171-184 | each group keeps start order |
| PublicViews.Holders | keralatechreach_django/publicpage/views.py:80 | exactly the published rows with the slug |
| PublicViews.ShowArticle | keralatechreach_django/publicpage/views.py:81-101 | the found article is saved with one more view through `News.save`, no other row changes, and the page holds it with the three newest other published articles and the ads |
| PublicViews.NewsDetail | keralatechreach_django/publicpage/views.py:79-101 | 404 with no holder, a server error with two, otherwise the article saved with one more view, the three newest other articles and the ads |
| PublicViews.CardAtLeastTwo | keralatechreach_django/publicpage/views.py:80 | two distinct members make at least two |
| PublicViews.UniqueSlugsOneHolder | keralatechreach_django/admindashboard/models.py:103 | under unique slugs, at most one holder |
| PublicViews.VisitCounts | keralatechreach_django/publicpage/views.py:93-94 | a visit adds one view and keeps the slug and other counters |
| PublicViews.RelatedExcludesSelf | keralatechreach_django/publicpage/views.py:81 | related articles are at most three, published, newest first and never the article itself |
| PublicViews.Contact | keralatechreach_django/publicpage/views.py:209-224 | GET shows the form; POST stores one unread message when all four fields are present, and redirects either way |
| PublicViews.ContactAddsUnread | keralatechreach_django/publicpage/views.py:213-218 | a stored message raises the unread count by one |
| PublicViews.NewsletterSignup | keralatechreach_django/publicpage/views.py:67-76 | redirects home; saves the address exactly on a POST with an address that is not yet subscribed |
| PublicForms.Subscribed | keralatechreach_django/publicpage/forms.py:20 | exactly the addresses held |
| PublicForms.CleanEmail | keralatechreach_django/publicpage/forms.py:18-22 | refused exactly when the address is already held, else returned unchanged |
| PublicForms.SecondSignupRefused | keralatechreach_django/publicpage/forms.py:18-22 | a saved address is refused the second time |
| PublicForms.SubscribedInsert | keralatechreach_django/publicpage/forms.py:20 | saving adds exactly that address |
| PublicForms.SignupOnlyThatEmail | keralatechreach_django/publicpage/forms.py:20 | saving one address makes no other look subscribed |
| ProfileBackfill.FilterDistinct | keralatechreach_django/admindashboard/management/commands/create_missing_profiles.py:9 | the users selected as lacking a profile are still pairwise distinct, so each gets one profile |
| ProfileBackfill.CreateMissingProfiles | keralatechreach_django/admindashboard/management/commands/create_missing_profiles.py:8-26 | every user ends with a profile, old ones untouched, new ones copied from the user, and the count is the number that lacked one |
| ProfileBackfill.SecondRunCreatesNone | keralatechreach_django/admindashboard/management/commands/create_missing_profiles.py:9 | once everyone has a profile the count is 0 |
| ProfileBackfill.CountIsLacking | keralatechreach_django/admindashboard/management/commands/create_missing_profiles.py:9-20 | the count is the number of distinct users without a profile |

## Left out

- File uploads, flash messages (`messages.success`/`error`), template rendering and context values that only pass a form to the template are not modelled. A response is the template or route name.
- The cache entry's 60-second expiry (`cache.set(..., RATE_LIMIT_PERIOD)`) is not modelled. Dropping expired timestamps when the history is read has the same effect on the limiter's answer.
- Concurrency between requests is not modelled. Each request runs to completion before the next.
- Querysets with neither `order_by` nor `Meta.ordering` (universities, degrees) come in an order the database does not fix. The model lists them in key order, and `AcademicViews.UniversityList` and `AcademicViews.DegreeList` state that order only as the model's choice.
- Rows that an `order_by` ranks equal keep their key or input order (`Support.SortBy` is stable). SQL leaves the order of such ties open.
- Clock readings of the rate limiter (`time.time()`) are exact `real` numbers. Floating-point rounding in `now - t < 60` is not modelled. Elsewhere datetimes are integer ticks.
- An empty client address (an X-Forwarded-For header that begins with a comma, or an empty REMOTE_ADDR) is stored as the empty string. Django's `GenericIPAddressField` would store NULL for it.
- Database collation: text orderings (`order_by('name')`, the ad location codes) are code-point order.
- `slugify`, `icontains`, `strftime('%B %Y')`, Django's built-in password validators and Python's `isupper`/`islower`/`isdigit` are function parameters, not reimplementations.
- The `show_on_home` field listed by `ExamForm` is not modelled. The `Exam` model in models.py has no such field.
- `UserProfile.district` (SET_NULL) and the `Note` cascade are not modelled. No modelled view reads or writes notes or profile districts.
- `News.updated_at`, `Event.updated_at` and `AdSettings.updated_at` are not modelled, since no modelled view or ordering reads them.
- Field length limits checked by the database (`max_length` on `ContactUs` and the others) are not modelled.
- The `NewsletterSubscriber` model is not part of this model. Subscribers are a table of addresses.
- `event_detail`, `questionpaper_detail` and `news_list` are not modelled. Each is a single filtered read, and `news_detail` and the queryset helpers already cover that.
- The user-management views, the dashboard view, the REST API views and Django admin are outside the modelled core.
- `Mixins.FormValid`: it uses the evidently intended label (`Mixins.Label`), not the label as written (see Findings).

## Findings

| source | as written | input that shows it | evidently intended | confidence | as-written member | corrected member |
|---|---|---|---|---|---|---|
| keralatechreach_django/admindashboard/mixins.py:16-18 | the label reads `self.object._state.adding` after `super().form_valid` has saved the object, and the save clears that flag | any create view using the mixin: the new object is logged as "Updated …" | "Created" for a new object and "Updated" for an existing one | not executed | Mixins.NewObjectLoggedAsUpdated | Mixins.Label |
