/**
 * The link-in-bio pages: one profile per user, holding a display name, a
 * bio, an image and a unique public slug, and a table of links that belong
 * to profiles. Profiles are keyed by their user (the relation is one-to-one)
 * and links by a counter standing in for their UUID.
 */
module Biolink {
  import opened Options
  import opened Text
  import Slugs

  type UserId = nat

  datatype Profile = Profile(user: UserId, displayName: string, bio: string, image: Option<string>, publicSlug: string)

  /** A `Link` row; title and url are NOT NULL columns. */
  datatype Link = Link(profile: UserId, title: string, url: string, isPublic: bool)

  // ---------------------------------------------------------------- editing a profile

  /** What a POST to `editprofile` carries: each field is absent or present with its raw text. */
  datatype ProfileForm = ProfileForm(displayName: Option<string>, bio: Option<string>, image: Option<string>)

  /** The edited profile, whether anything changed (and so it is saved), and whether the name-changed session flag is raised. */
  datatype EditResult = EditResult(profile: Profile, changed: bool, nameChanged: bool)

  /**
   * The change detection of `editprofile`: a display name is taken only when
   * the stripped value is non-empty and differs; a bio whenever the stripped
   * value differs, even when it is empty; an uploaded image always.
   */
  function ApplyEdit(p: Profile, form: ProfileForm): (r: EditResult)
    ensures r.profile.user == p.user && r.profile.publicSlug == p.publicSlug
    ensures r.nameChanged <==> form.displayName.Some? && Trim(form.displayName.value) != "" && Trim(form.displayName.value) != p.displayName
    ensures r.profile.displayName == (if r.nameChanged then Trim(form.displayName.value) else p.displayName)
    ensures r.profile.bio == (if form.bio.Some? then Trim(form.bio.value) else p.bio)
    ensures r.profile.image == (if form.image.Some? then form.image else p.image)
    ensures r.changed <==> r.nameChanged || r.profile.bio != p.bio || form.image.Some?
  {
    var name := if form.displayName.Some? then Trim(form.displayName.value) else "";
    var nameChanged := form.displayName.Some? && name != "" && name != p.displayName;
    var bio := if form.bio.Some? then Trim(form.bio.value) else p.bio;
    var bioChanged := bio != p.bio;
    var image := if form.image.Some? then form.image else p.image;
    EditResult(
      p.(displayName := if nameChanged then name else p.displayName, bio := bio, image := image),
      nameChanged || bioChanged || form.image.Some?,
      nameChanged)
  }

  /** Nothing changed means nothing to save: the edited profile is the stored one. */
  lemma UnchangedMeansSame(p: Profile, form: ProfileForm)
    ensures !ApplyEdit(p, form).changed ==> ApplyEdit(p, form).profile == p
  {
  }

  /** Submitting the same form a second time changes nothing more, unless it uploads an image again. */
  lemma ApplyEditIdempotent(p: Profile, form: ProfileForm)
    requires form.image.None?
    ensures var once := ApplyEdit(p, form).profile;
      ApplyEdit(once, form).profile == once && !ApplyEdit(once, form).changed
  {
  }

  // ---------------------------------------------------------------- public slug regeneration

  /** The k-th slug `enable_public_link` tries: the base, then the base with the (k-1)-th random suffix. */
  function Attempt(base: string, suffixes: seq<string>, k: nat): string
    requires k <= |suffixes|
  {
    if k == 0 then base else base + "-" + suffixes[k - 1]
  }

  /** The unique constraint on `public_slug`. */
  ghost predicate UniqueSlugs(profiles: map<UserId, Profile>) {
    forall a, b :: a in profiles && b in profiles && profiles[a].publicSlug == profiles[b].publicSlug ==> a == b
  }

  /** Replacing a profile by one with the same slug keeps the slugs unique. */
  lemma SameSlugKeepsUnique(profiles: map<UserId, Profile>, u: UserId, q: Profile)
    requires UniqueSlugs(profiles) && u in profiles && q.publicSlug == profiles[u].publicSlug
    ensures UniqueSlugs(profiles[u := q])
  {
    var after := profiles[u := q];
    forall a, b | a in after && b in after && after[a].publicSlug == after[b].publicSlug ensures a == b {
      assert after[a].publicSlug == profiles[a].publicSlug && after[b].publicSlug == profiles[b].publicSlug;
    }
  }

  datatype PublicLinkOutcome = NoProfile | NoFreeSlug | Enabled(slug: string)
  datatype DeleteLinkOutcome = LinkNotFound | LinkKept | LinkDeleted
  /** `MissingLinkField` is the IntegrityError of an insert with an absent title or url. */
  datatype AddLinkOutcome = AddProfileNotFound | NotPosted | MissingLinkField | LinkAdded(id: nat)

  /** What the public page of a slug shows: the owning profile and the ids of its public links. */
  datatype PublicView = PublicView(owner: UserId, profile: Profile, links: set<nat>)

  class BiolinkStore {
    /** Django's `slugify`, not part of this model. */
    const slugify: string -> string
    var profiles: map<UserId, Profile>
    var links: map<nat, Link>
    var nextLinkId: nat

    /** Profiles are stored under their user, public slugs are unique, and every link belongs to a stored profile. */
    ghost predicate Valid()
      reads this
    {
      && (forall u :: u in profiles ==> profiles[u].user == u)
      && UniqueSlugs(profiles)
      && (forall id :: id in links ==> id < nextLinkId && links[id].profile in profiles)
    }

    constructor (slugify: string -> string)
      ensures Valid()
      ensures this.slugify == slugify && profiles == map[] && links == map[]
    {
      this.slugify := slugify;
      profiles, links, nextLinkId := map[], map[], 1;
    }

    /** Every public slug some profile holds. */
    function TakenSlugs(): set<string>
      reads this
    {
      set u | u in profiles :: profiles[u].publicSlug
    }

    /** The public slugs held by profiles other than `user`'s. */
    function SlugsOfOthers(user: UserId): set<string>
      reads this
    {
      set u | u in profiles && u != user :: profiles[u].publicSlug
    }

    /**
     * `safe_get_or_create_profile`: an existing profile is returned as it
     * is; otherwise a new one is stored, named after the username, with the
     * first free slug built from the slugified username.
     */
    method GetOrCreateProfile(user: UserId, username: string) returns (p: Profile, created: bool)
      requires Valid()
      modifies this`profiles
      ensures Valid()
      ensures created <==> user !in old(profiles)
      ensures !created ==> p == old(profiles)[user] && profiles == old(profiles)
      ensures created ==>
        && p == Profile(user, username, "", None, p.publicSlug)
        && Slugs.FirstFree(old(TakenSlugs()), slugify(username), p.publicSlug)
        && profiles == old(profiles)[user := p]
    {
      if user in profiles {
        return profiles[user], false;
      }
      var slug := Slugs.UniqueSlug(TakenSlugs(), slugify(username));
      forall u | u in profiles ensures profiles[u].publicSlug != slug {
        assert profiles[u].publicSlug in TakenSlugs();
      }
      p := Profile(user, username, "", None, slug);
      profiles := profiles[user := p];
      created := true;
    }

    /**
     * `editprofile` (POST): fetch or create the requester's profile `p`,
     * apply the form to it, and store the result only when something
     * changed. `r.nameChanged` is whether the name-changed session flag is raised.
     */
    method EditProfile(user: UserId, username: string, form: ProfileForm) returns (p: Profile, r: EditResult)
      requires Valid()
      modifies this`profiles
      ensures Valid()
      ensures user in old(profiles) ==> p == old(profiles)[user]
      ensures user !in old(profiles) ==>
        p == Profile(user, username, "", None, p.publicSlug) && Slugs.FirstFree(old(TakenSlugs()), slugify(username), p.publicSlug)
      ensures r == ApplyEdit(p, form)
      ensures profiles == old(profiles)[user := if r.changed then r.profile else p]
    {
      var created;
      p, created := GetOrCreateProfile(user, username);
      r := ApplyEdit(p, form);
      if r.changed {
        SameSlugKeepsUnique(profiles, user, r.profile);
        profiles := profiles[user := r.profile];
      }
    }

    /**
     * `enable_public_link` (POST): the base is the slugified display name,
     * or the slugified username when the name is blank; it is kept unless
     * another profile holds it, else random suffixes are tried in turn. The
     * profile's own slug never counts as a collision. The draws are the
     * parameter `suffixes`; running out of them is the outcome `NoFreeSlug`.
     */
    method EnablePublicLink(user: UserId, username: string, suffixes: seq<string>) returns (r: PublicLinkOutcome)
      requires Valid()
      modifies this`profiles
      ensures Valid()
      ensures r == NoProfile <==> user !in old(profiles)
      ensures !r.Enabled? ==> profiles == old(profiles)
      ensures user in old(profiles) ==>
        var p := old(profiles)[user];
        var base := slugify(if p.displayName != "" then p.displayName else username);
        && (base !in old(SlugsOfOthers(user)) ==> r == Enabled(base))
        && (r == NoFreeSlug ==> forall k :: 0 <= k <= |suffixes| ==> Attempt(base, suffixes, k) in old(SlugsOfOthers(user)))
        && (r.Enabled? ==>
          && r.slug !in old(SlugsOfOthers(user))
          && (exists k :: 0 <= k <= |suffixes| && r.slug == Attempt(base, suffixes, k)
                && forall j :: 0 <= j < k ==> Attempt(base, suffixes, j) in old(SlugsOfOthers(user)))
          && profiles == old(profiles)[user := p.(publicSlug := r.slug)])
    {
      if user !in profiles {
        return NoProfile;
      }
      var p := profiles[user];
      var base := slugify(if p.displayName != "" then p.displayName else username);
      var others := SlugsOfOthers(user);
      var slug := base;
      var i := 0;
      while slug in others
        invariant 0 <= i <= |suffixes|
        invariant slug == Attempt(base, suffixes, i)
        invariant forall j :: 0 <= j < i ==> Attempt(base, suffixes, j) in others
        decreases |suffixes| - i
      {
        if i == |suffixes| {
          return NoFreeSlug;
        }
        slug := base + "-" + suffixes[i];
        i := i + 1;
      }
      forall u | u in profiles && u != user ensures profiles[u].publicSlug != slug {
        assert profiles[u].publicSlug in others;
      }
      profiles := profiles[user := p.(publicSlug := slug)];
      r := Enabled(slug);
    }

    /**
     * `Addlink` (POST): a public link on the profile of the user named in the
     * URL (404 when there is none). An absent title or url reaches the NOT
     * NULL columns and the insert fails, storing nothing. The view does not
     * check that this profile is the requester's own.
     */
    method AddLink(profileUser: UserId, isPost: bool, title: Option<string>, url: Option<string>) returns (r: AddLinkOutcome)
      requires Valid()
      modifies this`links, this`nextLinkId
      ensures Valid()
      ensures !isPost ==> r == NotPosted
      ensures r == AddProfileNotFound <==> isPost && profileUser !in profiles
      ensures r == MissingLinkField <==> isPost && profileUser in profiles && (title.None? || url.None?)
      ensures !r.LinkAdded? ==> links == old(links)
      ensures r.LinkAdded? ==>
        && title.Some? && url.Some?
        && r.id !in old(links) && links == old(links)[r.id := Link(profileUser, title.value, url.value, true)]
    {
      if !isPost {
        return NotPosted;
      }
      if profileUser !in profiles {
        return AddProfileNotFound;
      }
      if title.None? || url.None? {
        return MissingLinkField;
      }
      var id := nextLinkId;
      nextLinkId := nextLinkId + 1;
      links := links[id := Link(profileUser, title.value, url.value, true)];
      r := LinkAdded(id);
    }

    /**
     * `Deletelink`: the link must belong to the requester's profile (404
     * otherwise), and it is deleted only on POST; any other method leaves it.
     */
    method DeleteLink(requester: UserId, id: nat, isPost: bool) returns (r: DeleteLinkOutcome)
      requires Valid()
      modifies this`links
      ensures Valid()
      ensures r == LinkNotFound <==> requester !in profiles || id !in old(links) || old(links)[id].profile != requester
      ensures r == LinkDeleted <==> r != LinkNotFound && isPost
      ensures r == LinkDeleted ==> links == old(links) - {id}
      ensures r != LinkDeleted ==> links == old(links)
    {
      if requester !in profiles || id !in links || links[id].profile != requester {
        return LinkNotFound;
      }
      if !isPost {
        return LinkKept;
      }
      links := links - {id};
      r := LinkDeleted;
    }

    /** `public_biolink_by_slug`: the profile holding the slug (404 when none) and exactly its public links. */
    method PublicPage(slug: string) returns (r: Option<PublicView>)
      requires Valid()
      ensures r.None? <==> slug !in TakenSlugs()
      ensures r.Some? ==>
        && r.value.owner in profiles && profiles[r.value.owner] == r.value.profile
        && r.value.profile.publicSlug == slug
        && forall id :: id in r.value.links <==> id in links && links[id].profile == r.value.owner && links[id].isPublic
    {
      if slug !in TakenSlugs() {
        return None;
      }
      var owner :| owner in profiles && profiles[owner].publicSlug == slug;
      var shown := set id | id in links && links[id].profile == owner && links[id].isPublic;
      r := Some(PublicView(owner, profiles[owner], shown));
    }

    /** A public slug leads to one profile only. */
    lemma PublicSlugNamesOneProfile(slug: string, a: UserId, b: UserId)
      requires Valid()
      requires a in profiles && b in profiles && profiles[a].publicSlug == slug && profiles[b].publicSlug == slug
      ensures a == b
    {
    }
  }
}
