# URL.ly core, modelled in Dafny

URL.ly is a Django application with four parts: a URL shortener with click
analytics, a blog, link-in-bio pages and user accounts. This project models
the sequential core of each part. A table of rows with ids becomes an
in-memory map from row id to record; the like table, a set of (post, user)
pairs, becomes a set; the visit log and the contact messages become
sequences. Each view that changes tables becomes a method on a class holding
them. Each method's contract states what a request
does to the tables and which result it ends on. Each class invariant
(`Valid`) states what the schema and the views keep true together:
- unique slugs, e-mail addresses and usernames;
- ids below the sequence;
- rows pointing at stored rows;
- each link's click count equal to the number of its logged visits.

Layout, one module per file:

- `options.dfy`: `Option`.
- `text.dfy`: the Python `str` operations the views use, over `seq<char>`:
  - `strip()`, `split(c)`, `split()`, `join`;
  - `lower()` on ASCII letters, `endswith`;
  - decimal formatting.
- `slugs.dfy`: the unique-slug loop. Its copies in `blog/utils.py` and
  `Biolink/views.py` are the same algorithm.
- `url_utils.dfy`: the client address behind a proxy, and the QR file-name rule.
- `url_links.dfy`: the link table, whose operations are:
  - `make_short_url`, `redirect_url`, `update_url`, `delete_url`;
  - the visit log, which is what keeps the click counter.
- `blog.dfy`:
  - status codes and predicates, and the slug rule of `BlogPost.save`;
  - blog profile get-or-create; create, edit and status change;
  - likes and comments;
  - the public listing, with its ordering.
- `biolink.dfy`:
  - profile get-or-create, and profile editing with change detection;
  - public-slug regeneration;
  - adding and deleting links, and the public page.
- `auth.dfy`:
  - the user manager and the user, profile and contact rows;
  - signup, login, activation, password reset and change, contact;
  - the full-name split;
  - the two social-login pipeline steps.

External collaborators become constants of function type on the class that
uses them. The model gives them no meaning of its own. They are:
- the Hashids encoder, an id-to-slug function that may return "";
- Django's `slugify` and `normalize_email`;
- the activation-token and reset-token validators.

The verdicts of `validate_password` and `authenticate` are plain boolean
parameters. So are the facts of the request: whether it is a POST, whether
the visitor is logged in, the current time, the decoded uid and the visit data.

As written, two views do not check ownership. The model keeps that:
- `Addlink` adds a link to the profile named in the URL, whoever asks.
- `update_password` changes the password of the user named in the URL.

## Model

| member | source | states |
|---|---|---|
| Text.SplitOn | UrlShortner/urlLogic/utils.py:187 | `split(c)` always gives at least one piece; the first piece is the text up to the first `c`; no piece contains `c` |
| Text.JoinSplitOn | UrlShortner/urlLogic/utils.py:187 | joining the pieces of `split(c)` with `c` gives back the original text |
| Text.Words | UrlShortner/Auth/views.py:424 | every piece of `split()` is a non-empty run of non-blanks; the result is empty exactly when the text is all whitespace |
| Text.WordsSplitsText | UrlShortner/Auth/views.py:424 | a text that is not all whitespace is some whitespace, then the first word of `split()`, then a rest that is empty or starts with whitespace and whose own words are exactly the remaining ones, so runs of several blanks or tabs separate words like one blank |
| Text.WordsOfJoin | UrlShortner/Auth/views.py:424-426 | words joined by single spaces split back into the same words |
| Slugs.UniqueSlug | UrlShortner/blog/utils.py:4-13 | loops until the slug is free and returns the base when no row holds it, else `base-k` for the smallest `k >= 1` whose slug is free; the result is never taken; it reads only the set of taken slugs, and the unused `field_value` argument is not a parameter |
| Slugs.FirstFreeUnique | UrlShortner/blog/utils.py:8-11 | the loop's result is determined by the taken slugs and the base: two first-free candidates coincide |
| Slugs.CandidateInjective | UrlShortner/blog/utils.py:10 | distinct counters give distinct candidates, so each turn of the loop tries a new slug |
| UrlUtils.ClientIp | UrlShortner/urlLogic/utils.py:185-190 | with a non-empty X-Forwarded-For header the result is a prefix of it without a comma, ending at the first comma or at the end; blanks are not stripped; otherwise it is REMOTE_ADDR, possibly absent |
| UrlUtils.ClientIpIsFirstHop | UrlShortner/urlLogic/utils.py:186-187 | the result is the first piece of the comma-split header, and the header is that piece followed by the others |
| UrlUtils.Basename | UrlShortner/urlLogic/utils.py:143 | the stored name's last path component: a suffix with no '/', either the whole name or preceded by '/' |
| UrlUtils.QrFilename | UrlShortner/urlLogic/utils.py:144-145 | the result always ends in .png, .jpg or .jpeg, compared case-insensitively; a name that already does is unchanged; otherwise ".png" is appended |
| UrlUtils.QrFilenameIdempotent | UrlShortner/urlLogic/utils.py:143-145 | applying the extension rule twice equals applying it once |
| UrlUtils.DownloadName | UrlShortner/urlLogic/utils.py:143-145 | the attachment name has no '/' and an image extension; it is the base name when that already ends in .png, .jpg or .jpeg, and the base name with ".png" appended otherwise |
| UrlUtils.MailAttachment | UrlShortner/urlLogic/utils.py:165-169 | the mailed file name follows the same rule as the download (the base name, with ".png" appended when it has no image extension); the bytes are passed through unchanged |
| UrlLinks.NormaliseUrl | UrlShortner/urlLogic/views.py:228-229 | the result starts with http:// or https://; a URL that already does is unchanged; otherwise "http://" is prepended |
| UrlLinks.NormaliseUrlIdempotent | UrlShortner/urlLogic/views.py:228-229 | normalising twice equals normalising once |
| UrlLinks.WithoutVisitsOf | UrlShortner/urlLogic/views.py:429 | the visit log after the cascade of a delete holds exactly the old log's visits of other links: none of the deleted link's, and every other one is kept |
| UrlLinks.VisitCountAppend | UrlShortner/urlLogic/views.py:308-320 | logging one visit raises that link's visit count by one and no other link's |
| UrlLinks.VisitCountWithout | UrlShortner/urlLogic/views.py:429 | after the cascade the deleted link has no visits and every other link's count is unchanged |
| UrlLinks.InsertKeepsConsistent | UrlShortner/urlLogic/views.py:247-260 | a new row under the next id, with a fresh non-empty slug and zero clicks, keeps the table invariant |
| UrlLinks.VisitKeepsConsistent | UrlShortner/urlLogic/views.py:304-320 | bumping a link's click count and logging one visit of it keeps clicks equal to visits |
| UrlLinks.DeleteKeepsConsistent | UrlShortner/urlLogic/views.py:428-429 | deleting a row together with its visits keeps the invariant |
| UrlLinks.LinkTable.MakeShortUrl | UrlShortner/urlLogic/views.py:219-266 | the first failing check ends the request with no row added: blank URL, URL already shortened by this user, alias taken, expiry that does not parse; otherwise a row is inserted whose slug is the alias or `encode(id)`; an empty or already-held slug rolls the insert back but uses up the id |
| UrlLinks.LinkTable.RedirectUrl | UrlShortner/urlLogic/views.py:299-321 | unknown slug gives NotFound; a set expiry strictly before now gives Expired; both leave the counter and the log alone; otherwise the click count rises by exactly one, exactly one visit is logged and the answer redirects to the stored URL |
| UrlLinks.LinkTable.Click | UrlShortner/urlLogic/views.py:304-320 | a counted click raises that link's click count by exactly one, appends exactly that visit to the log and keeps clicks equal to visits; nothing else changes |
| UrlLinks.LinkTable.UpdateUrl | UrlShortner/urlLogic/views.py:456-476 | only the owner's link is edited; a non-empty posted URL replaces the destination; a parsed expiry replaces the expiry, while a blank or unparseable one is ignored; slug, clicks and visits never change |
| UrlLinks.LinkTable.DeleteUrl | UrlShortner/urlLogic/views.py:428-429 | only the requester's own link with that id is removed, with its visits; every other link is unchanged |
| UrlLinks.SlugNamesOneLink | UrlShortner/urlLogic/views.py:299 | in a valid table a slug names at most one link |
| Blog.StatusLabel | UrlShortner/blog/models.py:19-22 | the display label of each of the codes DR, PB and AR |
| Blog.StatusOnCreate | UrlShortner/blog/views.py:143-148 | the stored status is the posted code when it is valid; when it is absent or invalid it is DR |
| Blog.StatusOnEdit | UrlShortner/blog/views.py:169-172 | a valid posted code replaces the status; an absent or invalid one keeps the current status |
| Blog.ExactlyOneState | UrlShortner/blog/models.py:45-52 | for a valid status exactly one of published, draft and archived holds |
| Blog.Toggle | UrlShortner/blog/views.py:241-247 | the like is in the new table exactly when it was not in the old one; every other like is untouched |
| Blog.ToggleTwice | UrlShortner/blog/views.py:241-247 | two toggles restore the original like table |
| Blog.ToggleCount | UrlShortner/blog/views.py:249 | a toggle moves the liked post's count by exactly one, down when the like existed and up otherwise; other posts' counts stay |
| Blog.AddUnapprovedKeepsApproved | UrlShortner/blog/models.py:82 | a new comment starts unapproved, so every post's approved comments stay the same |
| Blog.DeleteKeepsOtherApproved | UrlShortner/blog/views.py:299-304 | deleting a comment removes it, and only it, from its post's approved comments |
| Blog.Insert | UrlShortner/blog/views.py:24-29 | inserting into a sorted listing keeps it sorted and adds exactly that entry |
| Blog.Sort | UrlShortner/blog/views.py:24-29 | the ordering is a permutation of the rows: likes descending then date descending, NULLs first, for "popular"; date descending otherwise |
| Blog.SortKeepsRows | UrlShortner/blog/views.py:24-29 | ordering neither adds nor drops a row |
| Blog.HeadRanksAll | UrlShortner/blog/views.py:32-37 | `.first()` of the ordered rows ranks at least as high as every row |
| Blog.PublishedBelow | UrlShortner/blog/views.py:19-22 | exactly the published posts that match the query, case-insensitively in title or content, each with its like count |
| Blog.ListPosts | UrlShortner/blog/views.py:14-52 | the listing is a reordering of exactly the published matching posts, as a multiset, so each appears once with a distinct id, sorted by the requested order; the featured post is a published post ranking first in the popular order; none is featured while searching, and one always is when not searching and a post is published |
| Blog.PermutationKeepsDistinct | UrlShortner/blog/views.py:24-29 | reordering rows whose ids increase, as the query returns them, lists every row once: the ids of the reordering are distinct |
| Blog.BlogStore.Save | UrlShortner/blog/models.py:54-57 | a post without a slug gets the first free candidate from its slugified title; an existing slug is kept; slugs stay unique |
| Blog.BlogStore.EnsureBlogProfile | UrlShortner/blog/views.py:84 | the user has a blog profile afterwards, created exactly when there was none; nothing else changes |
| Blog.BlogStore.CreatePost | UrlShortner/blog/views.py:137-158 | a requester without a blog profile fails at `request.user.blogprofile` before any insert, changing nothing and drawing no id; otherwise an absent title or content fails the NOT NULL insert and stores nothing; otherwise one new row with title, content, author and the validated status, saved through the slug rule; past the profile check one id is drawn from the sequence |
| Blog.BlogStore.EditPost | UrlShortner/blog/views.py:161-180 | a requester without a blog profile fails before the lookup and changes nothing; otherwise only the requester's post with that slug is edited; posted title and content replace the old ones and missing ones keep them; the status follows StatusOnEdit; a non-empty slug is kept, while a post found by an empty slug is given a fresh one by the save rule |
| Blog.BlogStore.UpdateBlogStatus | UrlShortner/blog/views.py:195-211 | an invalid status gives 400 before any lookup; then a requester without a blog profile is a server error the `except Blog.DoesNotExist` does not catch; a post the requester does not author gives 404; all three change nothing; otherwise only the status is stored, a non-empty slug stays as it was, and the code's label is returned |
| Blog.BlogStore.ToggleLike | UrlShortner/blog/views.py:237-249 | the like table becomes Toggle of the old one; `liked` says the like was absent before; the count is taken after the toggle |
| Blog.BlogStore.AddComment | UrlShortner/blog/views.py:252-285 | a missing or unpublished post gives 404 and a blank comment after stripping gives 400, both storing nothing; otherwise one stripped comment is stored, unapproved and not spam, and the approved count is unchanged |
| Blog.BlogStore.DeleteComment | UrlShortner/blog/views.py:288-306 | only the comment's author or the post's author may delete it; anyone else gets 403 and it stays; the count is taken after the delete |
| Blog.BlogStore.BlogList | UrlShortner/blog/views.py:14-52 | over the stored rows: as a multiset, every published post matching the query once, each with its stored row and its like count, and nothing else, in order; the featured post ranks first among all published posts |
| Biolink.ApplyEdit | UrlShortner/Biolink/views.py:200-219 | the display name changes only to a stripped, non-empty, different value, which raises the name-changed flag; the bio takes the stripped value whenever one is posted; an uploaded image always counts as a change |
| Biolink.UnchangedMeansSame | UrlShortner/Biolink/views.py:221-225 | when nothing changed, the profile is exactly the stored one, so skipping the save loses nothing |
| Biolink.ApplyEditIdempotent | UrlShortner/Biolink/views.py:202-213 | submitting the same form again without an image changes nothing |
| Biolink.SameSlugKeepsUnique | UrlShortner/Biolink/models.py:67 | replacing a profile by one with the same slug keeps public slugs unique |
| Biolink.BiolinkStore.GetOrCreateProfile | UrlShortner/Biolink/views.py:154-171 | an existing profile is returned unchanged with `created` false; otherwise a profile named after the username is stored with the first free slug built from it, and `created` is true |
| Biolink.BiolinkStore.EditProfile | UrlShortner/Biolink/views.py:195-227 | the profile is fetched or created, the form is applied, and the result is stored only when something changed |
| Biolink.BiolinkStore.EnablePublicLink | UrlShortner/Biolink/views.py:258-282 | the base comes from the display name, or from the username when the name is empty; the base is kept when no other profile holds it, the profile's own slug not counting; otherwise the first suffixed try that no other profile holds is used |
| Biolink.BiolinkStore.AddLink | UrlShortner/Biolink/views.py:105-111 | on POST: 404 when the named user has no profile; an absent title or url fails the NOT NULL insert and stores nothing; otherwise one public link with that title and url is added to that profile |
| Biolink.BiolinkStore.DeleteLink | UrlShortner/Biolink/views.py:131-135 | a link not on the requester's profile gives 404; the link is deleted only on POST; nothing else changes |
| Biolink.BiolinkStore.PublicPage | UrlShortner/Biolink/views.py:303-309 | a slug no profile holds gives 404; otherwise the page shows the owning profile and exactly its public links |
| Biolink.BiolinkStore.PublicSlugNamesOneProfile | UrlShortner/Biolink/models.py:67 | in a valid store a public slug names one profile |
| Auth.ValidateFileSize | UrlShortner/Auth/models.py:34-36 | a file is accepted if and only if its size is at most 2·1024·1024 bytes, so exactly 2 MiB passes |
| Auth.SuperuserDefaults | UrlShortner/Auth/models.py:87-89 | each of the three flags defaults to true when absent and keeps a given value |
| Auth.SuperuserDefaultsIdempotent | UrlShortner/Auth/models.py:87-89 | `setdefault` applied twice equals once |
| Auth.SplitFullName | UrlShortner/Auth/views.py:417-426 | a blank full name gives two empty names; otherwise the first name is the first word and the last name the later words joined by single spaces |
| Auth.SplitFullNameOfWords | UrlShortner/Auth/views.py:422-426 | words joined by single spaces split into the first word and the rest re-joined, and the last name splits back into exactly the later words |
| Auth.AfterLogin | UrlShortner/Auth/views.py:262-265 | after login the target is `next` from the form, or from the query when the form's is empty; it is used unless empty or "/"; otherwise the dashboard |
| Auth.UserStore.CreateUser | UrlShortner/Auth/models.py:63-69 | an absent or empty e-mail raises; the address is normalised; the insert fails, changing nothing, on an absent username and on a username or normalised e-mail some user already has; a new user gets a fresh id and is inactive and non-staff unless told otherwise (Auth/models.py:125-126); the profile signal adds an empty profile for it (Auth/signals.py:55-56); no other row changes |
| Auth.UserStore.CreateSuperuser | UrlShortner/Auth/models.py:87-98 | the flags default to true; an `is_staff` or `is_superuser` that then is not exactly true is refused; otherwise `create_user` fails or succeeds exactly as for an ordinary user, and a success adds one staff superuser under a fresh id with an empty profile, leaving every other row as it was |
| Auth.UserStore.Signup | UrlShortner/Auth/views.py:123-161 | over absent or present form values, the first failing check wins and no user is created: e-mail taken as typed, passwords differ (absent differs from empty), username taken, then an absent password raising in the length validator, then a rejected password; then `create_user`'s failures pass through; a new user is stored inactive with its password |
| Auth.UserStore.Login | UrlShortner/Auth/views.py:237-271 | a logged-in visitor goes to the dashboard; a GET shows the form with the query's `next`; a POST refuses missing fields, then an unknown address, then an inactive account, and only then checks the password; a successful login goes to AfterLogin |
| Auth.UserStore.InactiveNeverLogsIn | UrlShortner/Auth/views.py:254-258 | a user whose account is inactive never logs in, whatever the password verdict |
| Auth.UserStore.Activate | UrlShortner/Auth/views.py:205-218 | the account becomes active exactly when the uid names a user and the token checks for that user; otherwise nothing changes |
| Auth.UserStore.ResetPassword | UrlShortner/Auth/views.py:340-363 | a bad uid or token is refused; a GET shows the form; a mismatched confirmation leaves the password as it was; otherwise the new password is stored |
| Auth.UserStore.UpdatePassword | UrlShortner/Auth/views.py:454-476 | unknown user gives 404; a user without a profile raises; a mismatched confirmation leaves the password unchanged; otherwise it is replaced |
| Auth.UserStore.Contact | UrlShortner/Auth/views.py:93-104 | a message is stored, once, exactly when it is a POST with non-empty name, e-mail and message |
| Auth.UserStore.UpdateProfile | UrlShortner/Auth/views.py:414-436 | the requester's profile gets the split names, the posted gender and phone, and the image only when one is uploaded |
| Auth.UserStore.SaveProfile | UrlShortner/Auth/pipelines.py:34-44 | no user means no change; a name is filled in only when the profile is new or that name is empty; the first name takes the first " "-piece and the last name the second; a one-piece full name, or a missing one, raises after a new profile row was inserted |
| Auth.UserStore.ActivateGoogleUser | UrlShortner/Auth/pipelines.py:62-66 | acts only for "google-oauth2" with a user present; an inactive user becomes active and is saved; an active one is not touched |

## Left out

- Hashids (`urlLogic/utils.py:28-62`): `encode` is an uninterpreted function. No round-trip is claimed, because the library is not shown.
- Date parsing and time zones: a posted expiry arrives as `Expiry` (blank, parsed to an integer timestamp, or malformed), and `timezone.now()` is the parameter `now`.
  - `make_short_url` parses outside its `try`, so a malformed date is the uncaught error `BadExpiry`.
  - `update_url` swallows a parse failure.
- `extract_visit_data`: GeoIP and user-agent parsing are foreign, so a visit's details are the input `VisitInfo`.
- The QR image itself, meaning generation, the logo overlay, storage and the HTTP fetch: only the file-name rule is modelled, and the fetched bytes are a parameter.
- E-mail, Celery tasks, flash messages, templates, `cache_page`, rate limits and redirects: the pages a view ends on are outcome values.
- Concurrency and transactions: `redirect_url`'s read-then-write of `click_count` is modelled as atomic, and `make_short_url`'s rollback as "no row remains".
  - An id taken by a rolled-back insert stays used, as a PostgreSQL sequence behaves.
- Visit rows: the declaration of `UrlVisit` is not part of this model, since `urlLogic/models.py:1-12` declares only `UrlModel`. That deleting a link removes its visits (`UrlLinks.LinkTable.DeleteUrl`, `UrlLinks.WithoutVisitsOf`) rests on the "automatic cleanup of associated data" that `delete_url` documents (`urlLogic/views.py:426`), read as an `on_delete=CASCADE` foreign key.
- The unique constraint on the slug column: the views use `short_url`, while `urlLogic/models.py:8` declares a unique `short_code`. The model follows the views and treats `short_url` as the unique column. Saving a generated slug that is already held is therefore the outcome `SlugConflict`.
- Name mismatches between views and models are not reconciled:
  - the views' `Blog` and `Like` model the `BlogPost` and `PostLikes` tables;
  - blog and biolink profiles are identified with their users; the blog profile table is the set of users that have one, since its other columns are not modelled.
- `blog_list` pagination (9 per page): the listing is the whole ordered sequence.
- `published_at`: no view shown sets it. It is a field that creation leaves `None`, and NULLs sort first in a descending order, as in PostgreSQL.
- Blog cover images, the bio, website and picture columns of blog profile editing and the statistics and listings of `blog_home` (of both, only the get-or-create of the profile is modelled), `author_profile`, `view_blog_post` and `delete_blog_post`: these are outside the modelled part of the blog.
- `Blog.MatchesQuery`: case-insensitive matching folds ASCII letters only, because Unicode case mapping is not modelled.
- `UrlUtils.QrFilename`: case-insensitive matching folds ASCII letters only, for the same reason.
- `Biolink.BiolinkStore.EnablePublicLink`: the random `uuid4` suffixes are the input sequence `suffixes`, because randomness is outside the model. Running out of draws is the outcome `NoFreeSlug`, which the unbounded loop of the source never reaches.
- `Biolink.BiolinkStore.PublicPage`: the page's links are a set, so the newest-first `ordering = ["-created_at"]` of `Biolink/models.py:128-129` is not modelled; creation times are not part of a link.
- `Biolink.BiolinkStore.EnablePublicLink`: resetting the `name_changed` session flag (`Biolink/views.py:277`) is not modelled, because session state is outside the model.
- The biolink profile signal (`Biolink/signals.py`): it creates a `BioLinkProfile` for every new user with `public_slug` left "", on a column declared unique (`Biolink/models.py:67`). From the second user on, that insert would fail with an IntegrityError after the user and its account profile are saved. The model leaves the signal out, so `CreateUser` creates no biolink profile and the store's get-or-create makes one later.
- Image resizing (`Biolink/models.py:83-93`), `Getlinks` and `my_biolink_page`: these are PIL and pure rendering.
- The old image file deleted by `editprofile`: removing it from storage is I/O.
- Password hashing: the stored password is the raw value.
- `normalize_email`, `slugify`, the activation and reset token checks, `validate_password` and `authenticate`: these are oracles, and the last two are boolean verdicts.
- uid base64 decoding: the decoded id is an `Option` parameter, `None` when decoding fails or names no user.
- `Auth.UserStore.Activate`: a uid that decodes to text that is not a UUID makes the primary-key lookup raise a ValidationError, which the view does not catch (a server error); the model can only pass `None` for it, which gives the "link invalid" path. Neither changes any row.
- `Auth.UserStore.ResetPassword`: the same non-UUID uid is a server error in the source and the "link invalid" outcome in the model, with no row changed in either.
- `Auth.UserStore.CreateUser`: when both the username and the e-mail are already held, the model names the e-mail (`DuplicateEmail`), while the database may report either constraint; both are the same IntegrityError with no row changed.
- `Auth.UserStore.Login`: absent form fields are modelled as empty strings, because the view only tests them with `not email or not password`, where `None` and `""` behave alike.
- `resend_verification_email`, `forgot_password`, `logout`, the profile page and the index view: these are not in the modelled part of accounts.
- `CharField` maximum lengths (titles, slugs, names) are not enforced, because they are database validation outside the views' logic.
- `extra_fields` entries other than the three flags: the manager passes them through untouched.
