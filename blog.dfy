/**
 * The blog: post status codes and predicates, the slug rule of
 * `BlogPost.save`, the create/edit/status-change views, likes, comments and
 * the public listing. Tables are maps from row id to record; the like table
 * is a set, which is what its (post, user) uniqueness constraint makes it.
 * A blog profile is one-to-one with its user, so authors are user ids and
 * the profile table is the set of users that have one.
 */
module Blog {
  import opened Options
  import opened Text
  import Slugs

  type UserId = nat

  // ---------------------------------------------------------------- status codes

  const DRAFT: string := "DR"
  const PUBLISHED: string := "PB"
  const ARCHIVED: string := "AR"

  /** `StatusUpdate.values` */
  const StatusValues: seq<string> := [DRAFT, PUBLISHED, ARCHIVED]

  predicate IsStatus(code: string) {
    code in StatusValues
  }

  /** `get_status_display()`: the label of a stored code. */
  function StatusLabel(code: string): (display: string)
    requires IsStatus(code)
    ensures code == DRAFT <==> display == "Draft"
    ensures code == PUBLISHED <==> display == "Published"
    ensures code == ARCHIVED <==> display == "Archived"
  {
    if code == DRAFT then "Draft" else if code == PUBLISHED then "Published" else "Archived"
  }

  /** Status chosen by `create_blog_post`: the posted code if valid, else (also when absent) DRAFT. */
  function StatusOnCreate(posted: Option<string>): (code: string)
    ensures IsStatus(code)
    ensures posted.Some? && IsStatus(posted.value) ==> code == posted.value
    ensures posted.None? || !IsStatus(posted.value) ==> code == DRAFT
  {
    if posted.Some? && IsStatus(posted.value) then posted.value else DRAFT
  }

  /** Status chosen by `edit_blog_post`: the posted code if valid, else the current one. */
  function StatusOnEdit(posted: Option<string>, current: string): (code: string)
    requires IsStatus(current)
    ensures IsStatus(code)
    ensures posted.Some? && IsStatus(posted.value) ==> code == posted.value
    ensures posted.None? || !IsStatus(posted.value) ==> code == current
  {
    if posted.Some? && IsStatus(posted.value) then posted.value else current
  }

  // ---------------------------------------------------------------- rows

  datatype Post = Post(
    title: string,
    slug: string,
    content: string,
    status: string,
    author: UserId,
    publishedAt: Option<int>)

  predicate IsPublished(p: Post) { p.status == PUBLISHED }
  predicate IsDraft(p: Post) { p.status == DRAFT }
  predicate IsArchived(p: Post) { p.status == ARCHIVED }

  /** A post with a valid status is in exactly one of the three states. */
  lemma ExactlyOneState(p: Post)
    requires IsStatus(p.status)
    ensures IsPublished(p) || IsDraft(p) || IsArchived(p)
    ensures !(IsPublished(p) && IsDraft(p)) && !(IsPublished(p) && IsArchived(p)) && !(IsDraft(p) && IsArchived(p))
  {
  }

  /** A `PostLikes` row; the unique (post, user) pair is the row itself. */
  datatype Like = Like(post: nat, user: UserId)

  datatype Comment = Comment(post: nat, user: UserId, content: string, isApproved: bool, isSpam: bool)

  /** The comment-delete permission: the comment's author or the post's author. */
  predicate MayDeleteComment(comment: Comment, postAuthor: UserId, requester: UserId) {
    comment.user == requester || postAuthor == requester
  }

  // ---------------------------------------------------------------- likes

  function LikesOf(likes: set<Like>, post: nat): set<Like> {
    set l | l in likes && l.post == post
  }

  /** The effect of `toggle_like` on the like table. */
  function Toggle(likes: set<Like>, l: Like): (r: set<Like>)
    ensures l in r <==> l !in likes
    ensures forall m :: m != l ==> (m in r <==> m in likes)
  {
    if l in likes then likes - {l} else likes + {l}
  }

  /** Toggling twice restores the like table. */
  lemma ToggleTwice(likes: set<Like>, l: Like)
    ensures Toggle(Toggle(likes, l), l) == likes
  {
  }

  /** A toggle moves the liked post's count by exactly one and leaves every other post's count alone. */
  lemma ToggleCount(likes: set<Like>, l: Like, post: nat)
    ensures post == l.post && l in likes ==> |LikesOf(Toggle(likes, l), post)| == |LikesOf(likes, post)| - 1
    ensures post == l.post && l !in likes ==> |LikesOf(Toggle(likes, l), post)| == |LikesOf(likes, post)| + 1
    ensures post != l.post ==> LikesOf(Toggle(likes, l), post) == LikesOf(likes, post)
  {
    if post == l.post {
      if l in likes {
        assert LikesOf(Toggle(likes, l), post) == LikesOf(likes, post) - {l};
      } else {
        assert LikesOf(Toggle(likes, l), post) == LikesOf(likes, post) + {l};
      }
    }
  }

  // ---------------------------------------------------------------- comments

  /** Ids of the approved comments on a post. */
  function Approved(comments: map<nat, Comment>, post: nat): set<nat> {
    set c | c in comments && comments[c].post == post && comments[c].isApproved
  }

  /** A new comment starts unapproved, so adding one leaves every post's approved comments as they were. */
  lemma AddUnapprovedKeepsApproved(comments: map<nat, Comment>, id: nat, c: Comment, post: nat)
    requires id !in comments && !c.isApproved
    ensures Approved(comments[id := c], post) == Approved(comments, post)
  {
    var after := comments[id := c];
    forall x ensures x in Approved(after, post) <==> x in Approved(comments, post) {
      if x != id {
        assert x in after <==> x in comments;
        assert x in comments ==> after[x] == comments[x];
      }
    }
  }

  /** Deleting a comment removes it, and only it, from its post's approved comments. */
  lemma DeleteKeepsOtherApproved(comments: map<nat, Comment>, id: nat, post: nat)
    requires id in comments
    ensures Approved(comments - {id}, post) == Approved(comments, post) - {id}
  {
  }

  // ---------------------------------------------------------------- listing order

  /** One entry of the listing: the row, its id and its like count. */
  datatype Entry = Entry(id: nat, post: Post, likeCount: nat)

  /** `-published_at` on PostgreSQL: NULL first, then the latest. */
  predicate PublishedNotAfter(x: Option<int>, y: Option<int>) {
    x.None? || (y.Some? && x.value >= y.value)
  }

  /** `a` may be listed before `b`: by likes then date when `popular`, else by date alone. */
  predicate Ranks(a: Entry, b: Entry, popular: bool) {
    if popular then
      a.likeCount > b.likeCount || (a.likeCount == b.likeCount && PublishedNotAfter(a.post.publishedAt, b.post.publishedAt))
    else
      PublishedNotAfter(a.post.publishedAt, b.post.publishedAt)
  }

  predicate SortedBy(s: seq<Entry>, popular: bool) {
    forall i, j :: 0 <= i < j < |s| ==> Ranks(s[i], s[j], popular)
  }

  function Insert(x: Entry, s: seq<Entry>, popular: bool): (r: seq<Entry>)
    requires SortedBy(s, popular)
    ensures multiset(r) == multiset(s) + multiset{x}
    ensures SortedBy(r, popular)
  {
    if s == [] then [x]
    else if Ranks(x, s[0], popular) then
      assert forall j :: 0 < j < |[x] + s| ==> ([x] + s)[j] == s[j - 1];
      [x] + s
    else
      var t := Insert(x, s[1..], popular);
      InsertBehindHead(x, s, t, popular);
      [s[0]] + t
  }

  /** When `x` does not go first, the head followed by `x` inserted into the rest is still sorted and holds the same rows. */
  lemma InsertBehindHead(x: Entry, s: seq<Entry>, t: seq<Entry>, popular: bool)
    requires SortedBy(s, popular) && |s| > 0 && !Ranks(x, s[0], popular)
    requires SortedBy(t, popular) && multiset(t) == multiset(s[1..]) + multiset{x}
    ensures multiset([s[0]] + t) == multiset(s) + multiset{x}
    ensures SortedBy([s[0]] + t, popular)
  {
    assert s == [s[0]] + s[1..];
    forall j | 0 <= j < |t| ensures Ranks(s[0], t[j], popular) {
      assert t[j] in multiset(t);
      if t[j] != x {
        assert t[j] in multiset(s[1..]);
        var k :| 0 <= k < |s[1..]| && s[1..][k] == t[j];
        assert s[k + 1] == t[j];
      }
    }
    var r := [s[0]] + t;
    forall i, j | 0 <= i < j < |r| ensures Ranks(r[i], r[j], popular) {
      if i == 0 {
        assert r[j] == t[j - 1];
      } else {
        assert r[i] == t[i - 1] && r[j] == t[j - 1];
      }
    }
  }

  /** The ORM's `order_by`: a sorted permutation of the rows. */
  function Sort(s: seq<Entry>, popular: bool): (r: seq<Entry>)
    ensures multiset(r) == multiset(s)
    ensures SortedBy(r, popular)
  {
    if s == [] then []
    else
      assert s == [s[0]] + s[1..];
      Insert(s[0], Sort(s[1..], popular), popular)
  }

  /** Listing and sorting keep exactly the rows they were given. */
  lemma SortKeepsRows(s: seq<Entry>, popular: bool)
    ensures forall e :: e in Sort(s, popular) <==> e in s
  {
    forall e ensures e in Sort(s, popular) <==> e in s {
      assert e in multiset(Sort(s, popular)) <==> e in multiset(s);
    }
  }

  /** The head of a sorted listing ranks at least as high as every entry in it. */
  lemma HeadRanksAll(s: seq<Entry>, popular: bool)
    requires SortedBy(s, popular) && |s| > 0
    ensures forall e :: e in s ==> Ranks(s[0], e, popular)
  {
    forall e | e in s ensures Ranks(s[0], e, popular) {
      var k :| 0 <= k < |s| && s[k] == e;
      if k == 0 { assert Ranks(e, e, popular); }
    }
  }

  /** `title__icontains` / `content__icontains`, with ASCII case folding. */
  predicate Contains(text: string, q: string) {
    exists i :: 0 <= i <= |text| - |q| && q <= text[i..]
  }

  predicate MatchesQuery(p: Post, query: string) {
    query == "" || Contains(Lower(p.title), Lower(query)) || Contains(Lower(p.content), Lower(query))
  }

  /** The published rows among ids below `n` that match the query, in id order, each with its like count. */
  function PublishedBelow(posts: map<nat, Post>, likes: set<Like>, n: nat, query: string): (r: seq<Entry>)
    ensures forall e :: e in r ==>
      e.id < n && e.id in posts && e.post == posts[e.id] && e.likeCount == |LikesOf(likes, e.id)|
      && IsPublished(e.post) && MatchesQuery(e.post, query)
    ensures forall id :: id < n && id in posts && IsPublished(posts[id]) && MatchesQuery(posts[id], query) ==>
      Entry(id, posts[id], |LikesOf(likes, id)|) in r
    ensures IncreasingIds(r)
  {
    if n == 0 then []
    else
      var id := n - 1;
      var earlier := PublishedBelow(posts, likes, id, query);
      if id in posts && IsPublished(posts[id]) && MatchesQuery(posts[id], query) then
        var e := Entry(id, posts[id], |LikesOf(likes, id)|);
        assert forall x :: x in earlier + [e] <==> x in earlier || x == e;
        earlier + [e]
      else
        earlier
  }

  predicate IncreasingIds(s: seq<Entry>) {
    forall i, j :: 0 <= i < j < |s| ==> s[i].id < s[j].id
  }

  predicate DistinctIds(s: seq<Entry>) {
    forall i, j :: 0 <= i < j < |s| ==> s[i].id != s[j].id
  }

  /** An entry at two positions occurs at least twice in the multiset. */
  lemma RepeatCountsTwice(s: seq<Entry>, i: nat, j: nat)
    requires i < j < |s|
    ensures s[i] == s[j] ==> multiset(s)[s[i]] >= 2
  {
    assert s == s[..j] + [s[j]] + s[j + 1..];
    assert s[i] in s[..j];
  }

  /** With increasing ids no entry occurs twice. */
  lemma {:induction false} IncreasingOnce(s: seq<Entry>, x: Entry)
    requires IncreasingIds(s)
    decreases |s|
    ensures multiset(s)[x] <= 1
  {
    if s != [] {
      var init, last := s[..|s| - 1], s[|s| - 1];
      assert s == init + [last];
      IncreasingOnce(init, x);
      assert forall k :: 0 <= k < |init| ==> init[k].id < last.id;
      assert last !in init;
    }
  }

  /** Reordering a listing whose ids increase gives one whose ids are distinct. */
  lemma PermutationKeepsDistinct(s: seq<Entry>, t: seq<Entry>)
    requires IncreasingIds(t) && multiset(s) == multiset(t)
    ensures DistinctIds(s)
  {
    forall i, j | 0 <= i < j < |s| ensures s[i].id != s[j].id {
      RepeatCountsTwice(s, i, j);
      IncreasingOnce(t, s[i]);
      assert s[i] in multiset(t) && s[j] in multiset(t);
      var k :| 0 <= k < |t| && t[k] == s[i];
      var m :| 0 <= m < |t| && t[m] == s[j];
    }
  }

  datatype Listing = Listing(posts: seq<Entry>, featured: Option<Entry>)

  /**
   * `blog_list` over the rows with ids below `n`: the published posts matching
   * the query (all of them for an empty query), ordered by likes then date for
   * "popular" and by date otherwise.  The featured post is the first of all
   * published posts in the "popular" order; none is shown while searching.
   */
  function ListPosts(posts: map<nat, Post>, likes: set<Like>, n: nat, query: string, sort: string): (r: Listing)
    ensures multiset(r.posts) == multiset(PublishedBelow(posts, likes, n, query))
    ensures forall e :: e in r.posts <==> e in PublishedBelow(posts, likes, n, query)
    ensures DistinctIds(r.posts)
    ensures SortedBy(r.posts, sort == "popular")
    ensures query != "" ==> r.featured == None
    ensures r.featured.Some? ==>
      && r.featured.value in PublishedBelow(posts, likes, n, "")
      && forall e :: e in PublishedBelow(posts, likes, n, "") ==> Ranks(r.featured.value, e, true)
    ensures query == "" && PublishedBelow(posts, likes, n, "") != [] ==> r.featured.Some?
  {
    var all := PublishedBelow(posts, likes, n, query);
    var everyPublished := PublishedBelow(posts, likes, n, "");
    var candidates := Sort(everyPublished, true);
    SortKeepsRows(all, sort == "popular");
    SortKeepsRows(everyPublished, true);
    PermutationKeepsDistinct(Sort(all, sort == "popular"), all);
    if query == "" && |candidates| > 0 then
      HeadRanksAll(candidates, true);
      Listing(Sort(all, sort == "popular"), Some(candidates[0]))
    else
      Listing(Sort(all, sort == "popular"), None)
  }

  // ---------------------------------------------------------------- the tables

  /** `...NoProfile` is the RelatedObjectDoesNotExist of `request.user.blogprofile`: a server error. */
  datatype StatusOutcome = InvalidStatus | StatusNoProfile | StatusPostNotFound | StatusUpdated(display: string)
  /** `MissingPostField` is the IntegrityError of an insert with an absent title or content. */
  datatype CreateOutcome = CreateNoProfile | MissingPostField | PostCreated(id: nat)
  datatype EditOutcome = EditNoProfile | EditNotFound | Edited
  datatype ToggleOutcome = LikePostNotFound | Toggled(liked: bool, count: nat)
  datatype CommentOutcome = CommentPostNotFound | EmptyComment | CommentAdded(id: nat, count: nat)
  datatype DeleteCommentOutcome = CommentNotFound | PermissionDenied | CommentDeleted(count: nat)

  class BlogStore {
    /** Django's `slugify`, not part of this model. */
    const slugify: string -> string
    var posts: map<nat, Post>
    var likes: set<Like>
    var comments: map<nat, Comment>
    var nextPostId: nat
    var nextCommentId: nat
    /** The users that have a `BlogProfile` row. */
    var blogProfiles: set<UserId>

    /**
     * Ids come from the sequences, slugs are unique, statuses are valid
     * codes, every author has a blog profile, and likes and comments point
     * at stored posts.
     */
    ghost predicate Valid()
      reads this
    {
      && (forall id :: id in posts ==> posts[id].author in blogProfiles)
      && (forall id :: id in posts ==> id < nextPostId && IsStatus(posts[id].status))
      && (forall a, b :: a in posts && b in posts && posts[a].slug == posts[b].slug ==> a == b)
      && (forall l :: l in likes ==> l.post in posts)
      && (forall c :: c in comments ==> c < nextCommentId && comments[c].post in posts)
    }

    constructor (slugify: string -> string)
      ensures Valid()
      ensures this.slugify == slugify && posts == map[] && likes == {} && comments == map[] && blogProfiles == {}
    {
      this.slugify := slugify;
      posts, likes, comments, blogProfiles := map[], {}, map[], {};
      nextPostId, nextCommentId := 1, 1;
    }

    /**
     * `BlogProfile.objects.get_or_create(user=...)`, which only `blog_home`
     * and the blog-profile editor run: the user has a blog profile afterwards.
     */
    method EnsureBlogProfile(user: UserId) returns (created: bool)
      requires Valid()
      modifies this`blogProfiles
      ensures Valid()
      ensures created <==> user !in old(blogProfiles)
      ensures blogProfiles == old(blogProfiles) + {user}
    {
      created := user !in blogProfiles;
      blogProfiles := blogProfiles + {user};
    }

    /** Every slug a row holds: what `BlogPost.objects.filter(slug=s).exists()` asks about. */
    function TakenSlugs(): set<string>
      reads this
    {
      set id | id in posts :: posts[id].slug
    }

    /** `post.likes.count()` */
    function LikeCount(post: nat): nat
      reads this
    {
      |LikesOf(likes, post)|
    }

    /** `post.comments.filter(is_approved=True).count()` */
    function ApprovedCount(post: nat): nat
      reads this
    {
      |Approved(comments, post)|
    }

    /**
     * `BlogPost.save`: a post without a slug gets the first free candidate
     * built from its title; a post with a slug keeps it.
     */
    method Save(id: nat, p: Post)
      requires Valid() && id < nextPostId && IsStatus(p.status) && p.author in blogProfiles
      requires p.slug == "" || (id in posts && posts[id].slug == p.slug)
      modifies this`posts
      ensures Valid()
      ensures id in posts && posts == old(posts)[id := p.(slug := posts[id].slug)]
      ensures p.slug != "" ==> posts[id] == p
      ensures p.slug == "" ==> Slugs.FirstFree(old(TakenSlugs()), slugify(p.title), posts[id].slug)
    {
      var q := p;
      if p.slug == "" {
        var slug := Slugs.UniqueSlug(TakenSlugs(), slugify(p.title));
        q := p.(slug := slug);
        forall other | other in posts && other != id ensures posts[other].slug != slug {
          assert posts[other].slug in TakenSlugs();
        }
      }
      posts := posts[id := q];
    }

    /**
     * `create_blog_post` (POST): a requester without a blog profile is a
     * server error before any insert. Otherwise a new row with the validated
     * status, saved through the slug rule. An absent title or content reaches
     * the NOT NULL columns: the insert fails and stores nothing, though it
     * has drawn its value from the id sequence.
     */
    method CreatePost(author: UserId, title: Option<string>, content: Option<string>, status: Option<string>)
      returns (r: CreateOutcome)
      requires Valid()
      modifies this
      ensures Valid()
      ensures r == CreateNoProfile <==> author !in blogProfiles
      ensures r == CreateNoProfile ==> posts == old(posts) && nextPostId == old(nextPostId)
      ensures r != CreateNoProfile ==> nextPostId == old(nextPostId) + 1
      ensures r == MissingPostField <==> author in blogProfiles && (title.None? || content.None?)
      ensures r == MissingPostField ==> posts == old(posts)
      ensures r.PostCreated? ==>
        && r.id == old(nextPostId) && r.id !in old(posts) && r.id in posts
        && posts == old(posts)[r.id := Post(title.value, posts[r.id].slug, content.value, StatusOnCreate(status), author, None)]
        && Slugs.FirstFree(old(TakenSlugs()), slugify(title.value), posts[r.id].slug)
      ensures likes == old(likes) && comments == old(comments) && nextCommentId == old(nextCommentId)
      ensures blogProfiles == old(blogProfiles)
    {
      if author !in blogProfiles {
        return CreateNoProfile;
      }
      var id := nextPostId;
      nextPostId := nextPostId + 1;
      if title.None? || content.None? {
        return MissingPostField;
      }
      Save(id, Post(title.value, "", content.value, StatusOnCreate(status), author, None));
      r := PostCreated(id);
    }

    /** The author's post with that slug, if any (`get_object_or_404(slug=..., author=...)`). */
    ghost predicate Holds(author: UserId, slug: string, id: nat)
      reads this
    {
      id in posts && posts[id].slug == slug && posts[id].author == author
    }

    /**
     * `edit_blog_post` (POST): a requester without a blog profile is a server
     * error before the lookup. On the requester's own post, a posted title or
     * content replaces the old one, a missing one keeps it; an invalid status
     * keeps the old status. The post is saved through the slug rule.
     */
    method EditPost(requester: UserId, slug: string, title: Option<string>, content: Option<string>, status: Option<string>)
      returns (r: EditOutcome)
      requires Valid()
      modifies this`posts
      ensures Valid()
      ensures r == EditNoProfile <==> requester !in blogProfiles
      ensures r == EditNotFound <==> requester in blogProfiles && !old(exists id :: Holds(requester, slug, id))
      ensures !r.Edited? ==> posts == old(posts)
      ensures forall id :: old(Holds(requester, slug, id)) ==>
        var p := old(posts)[id];
        id in posts && posts == old(posts)[id := p.(
          title := title.GetOr(p.title),
          content := content.GetOr(p.content),
          status := StatusOnEdit(status, p.status),
          slug := posts[id].slug)]
        && (slug != "" ==> posts[id].slug == slug)
    {
      if requester !in blogProfiles {
        return EditNoProfile;
      }
      if !exists id :: id in posts && posts[id].slug == slug && posts[id].author == requester {
        assert !exists id :: Holds(requester, slug, id);
        return EditNotFound;
      }
      var id :| id in posts && posts[id].slug == slug && posts[id].author == requester;
      assert Holds(requester, slug, id);
      assert forall other :: Holds(requester, slug, other) ==> other == id;
      var p := posts[id];
      p := p.(title := title.GetOr(p.title), content := content.GetOr(p.content), status := StatusOnEdit(status, p.status));
      Save(id, p);
      r := Edited;
    }

    /**
     * `update_blog_status`: an invalid code is refused with 400 before any
     * lookup; a requester without a blog profile is then a server error,
     * which the view's `except Blog.DoesNotExist` does not catch; a post the
     * requester does not author is 404; otherwise the code is stored and its
     * label returned.
     */
    method UpdateBlogStatus(requester: UserId, slug: string, newStatus: Option<string>) returns (r: StatusOutcome)
      requires Valid()
      modifies this`posts
      ensures Valid()
      ensures r == InvalidStatus <==> newStatus.None? || !IsStatus(newStatus.value)
      ensures r == StatusNoProfile <==> newStatus.Some? && IsStatus(newStatus.value) && requester !in blogProfiles
      ensures r == StatusPostNotFound <==>
        newStatus.Some? && IsStatus(newStatus.value) && requester in blogProfiles && !old(exists id :: Holds(requester, slug, id))
      ensures !r.StatusUpdated? ==> posts == old(posts)
      ensures r.StatusUpdated? ==> r.display == StatusLabel(newStatus.value)
      ensures r.StatusUpdated? ==> forall id :: old(Holds(requester, slug, id)) ==>
        && id in posts && posts == old(posts)[id := old(posts)[id].(status := newStatus.value, slug := posts[id].slug)]
        && (slug != "" ==> posts[id].slug == slug)
    {
      if newStatus.None? || !IsStatus(newStatus.value) {
        return InvalidStatus;
      }
      if requester !in blogProfiles {
        return StatusNoProfile;
      }
      if !exists id :: id in posts && posts[id].slug == slug && posts[id].author == requester {
        assert !exists id :: Holds(requester, slug, id);
        return StatusPostNotFound;
      }
      var id :| id in posts && posts[id].slug == slug && posts[id].author == requester;
      assert Holds(requester, slug, id);
      assert forall other :: Holds(requester, slug, other) ==> other == id;
      Save(id, posts[id].(status := newStatus.value));
      r := StatusUpdated(StatusLabel(newStatus.value));
    }

    /**
     * `toggle_like`: removes the user's like of the post if there is one,
     * else adds it; reports whether the post is now liked and its new count.
     */
    method ToggleLike(user: UserId, post: nat) returns (r: ToggleOutcome)
      requires Valid()
      modifies this`likes
      ensures Valid()
      ensures post !in posts ==> r == LikePostNotFound && likes == old(likes)
      ensures post in posts ==>
        && likes == Toggle(old(likes), Like(post, user))
        && r == Toggled(Like(post, user) !in old(likes), LikeCount(post))
    {
      if post !in posts {
        return LikePostNotFound;
      }
      var l := Like(post, user);
      var liked := l !in likes;
      likes := Toggle(likes, l);
      r := Toggled(liked, LikeCount(post));
    }

    /**
     * `add_comment`: only a published post takes comments (404 otherwise);
     * a comment blank after stripping is refused with 400; a new comment is
     * stored stripped, not approved and not spam.
     */
    method AddComment(user: UserId, post: nat, content: string) returns (r: CommentOutcome)
      requires Valid()
      modifies this`comments, this`nextCommentId
      ensures Valid()
      ensures r == CommentPostNotFound <==> post !in posts || !IsPublished(posts[post])
      ensures r == EmptyComment <==> post in posts && IsPublished(posts[post]) && Trim(content) == ""
      ensures !r.CommentAdded? ==> comments == old(comments)
      ensures r.CommentAdded? ==>
        && r.id == old(nextCommentId) && r.id !in old(comments)
        && comments == old(comments)[r.id := Comment(post, user, Trim(content), false, false)]
        && r.count == ApprovedCount(post) == old(ApprovedCount(post))
    {
      if post !in posts || !IsPublished(posts[post]) {
        return CommentPostNotFound;
      }
      var text := Trim(content);
      if text == "" {
        return EmptyComment;
      }
      var id := nextCommentId;
      nextCommentId := nextCommentId + 1;
      AddUnapprovedKeepsApproved(comments, id, Comment(post, user, text, false, false), post);
      comments := comments[id := Comment(post, user, text, false, false)];
      r := CommentAdded(id, ApprovedCount(post));
    }

    /**
     * `delete_comment`: only the comment's author or the post's author may
     * delete it; anyone else gets 403 and the comment stays.
     */
    method DeleteComment(requester: UserId, id: nat) returns (r: DeleteCommentOutcome)
      requires Valid()
      modifies this`comments
      ensures Valid()
      ensures r == CommentNotFound <==> id !in old(comments)
      ensures r == PermissionDenied <==>
        id in old(comments) && !MayDeleteComment(old(comments)[id], posts[old(comments)[id].post].author, requester)
      ensures !r.CommentDeleted? ==> comments == old(comments)
      ensures r.CommentDeleted? ==> comments == old(comments) - {id} && r.count == ApprovedCount(old(comments)[id].post)
    {
      if id !in comments {
        return CommentNotFound;
      }
      var c := comments[id];
      if !MayDeleteComment(c, posts[c.post].author, requester) {
        return PermissionDenied;
      }
      comments := comments - {id};
      r := CommentDeleted(ApprovedCount(c.post));
    }

    /**
     * `blog_list` over the stored rows: every published post matching the
     * query and nothing else, in the requested order, and the featured post
     * ranking first among all published posts.
     */
    function BlogList(query: string, sort: string): (r: Listing)
      reads this
      requires Valid()
      ensures multiset(r.posts) == multiset(PublishedBelow(posts, likes, nextPostId, query))
      ensures forall e :: e in r.posts ==>
        e.id in posts && e == Entry(e.id, posts[e.id], LikeCount(e.id)) && IsPublished(e.post) && MatchesQuery(e.post, query)
      ensures forall id :: id in posts && IsPublished(posts[id]) && MatchesQuery(posts[id], query) ==>
        Entry(id, posts[id], LikeCount(id)) in r.posts
      ensures DistinctIds(r.posts)
      ensures SortedBy(r.posts, sort == "popular")
      ensures query != "" ==> r.featured == None
      ensures r.featured.Some? ==>
        var f := r.featured.value;
        && f.id in posts && f == Entry(f.id, posts[f.id], LikeCount(f.id)) && IsPublished(f.post)
        && forall id :: id in posts && IsPublished(posts[id]) ==> Ranks(f, Entry(id, posts[id], LikeCount(id)), true)
      ensures query == "" && (exists id :: id in posts && IsPublished(posts[id])) ==> r.featured.Some?
    {
      var r := ListPosts(posts, likes, nextPostId, query, sort);
      assert query == "" && (exists id :: id in posts && IsPublished(posts[id])) ==>
        PublishedBelow(posts, likes, nextPostId, "") != [] by {
        if query == "" && exists id :: id in posts && IsPublished(posts[id]) {
          var id :| id in posts && IsPublished(posts[id]);
          assert Entry(id, posts[id], LikeCount(id)) in PublishedBelow(posts, likes, nextPostId, "");
        }
      }
      r
    }
  }
}
