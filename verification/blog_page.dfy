/** The blog page (src/pages/blog/BlogPage.jsx): the "time ago" label of a post,
    the comma-separated tag field, the tab and search filter over the loaded
    posts, and the draft's reset after publishing. */
module BlogPage {
  import Text
  import Lists

  // ---------------------------------------------------------------------------
  // Time ago

  /** Whole seconds from `date` to `now`, both in milliseconds, rounded down as
      `Math.floor` does (Dafny's `/` by a positive divisor also rounds down, so a
      date in the future gives a negative count). */
  function ElapsedSeconds(now: int, date: int): (s: int)
    ensures s * 1000 <= now - date < s * 1000 + 1000
  {
    (now - date) / 1000
  }

  datatype Elapsed = JustNow | Minutes(n: nat) | Hours(n: nat) | Days(n: nat)

  /** The unit `getTimeAgo` picks: whole minutes below an hour, whole hours below
      a day, whole days beyond, each reached by flooring the previous count. */
  function Bucket(seconds: int): (e: Elapsed)
    ensures e.JustNow? <==> seconds < 60
    ensures e.Minutes? ==> 60 <= seconds < 3600 && e.n == seconds / 60
    ensures e.Hours? ==> 3600 <= seconds < 86400 && e.n == seconds / 3600
    ensures e.Days? ==> 86400 <= seconds && e.n == seconds / 86400
    ensures !e.JustNow? ==> e.n >= 1
  {
    if seconds < 60 then JustNow
    else
      var minutes := seconds / 60;
      if minutes < 60 then Minutes(minutes)
      else
        var hours := minutes / 60;
        if hours < 24 then Hours(hours)
        else Days(hours / 24)
  }

  /** The unit's name, singular; the plural "s" is added by the suffix. */
  function Unit(e: Elapsed): (r: string)
    requires !e.JustNow?
    ensures e.Minutes? ==> r == "minute"
    ensures e.Hours? ==> r == "hour"
    ensures e.Days? ==> r == "day"
    ensures r != [] && r[|r| - 1] != 's'
  {
    match e
    case Minutes(_) => "minute"
    case Hours(_) => "hour"
    case Days(_) => "day"
  }

  /** What follows the count: the unit, an "s" when the count is above 1, and "ago". */
  function Suffix(e: Elapsed): (r: string)
    requires !e.JustNow?
    ensures |r| >= 5 && r[0] == ' '
    ensures Text.StartsWith(r, " " + Unit(e))
    ensures Text.EndsWith(r, "s ago") <==> e.n > 1
  {
    var u := Unit(e);
    if e.n > 1 then
      var r := " " + u + "s ago";
      assert r[|r| - 5..] == "s ago";
      assert r[..|u| + 1] == " " + u;
      r
    else
      var r := " " + u + " ago";
      assert r[|r| - 5] == u[|u| - 1] != 's';
      assert r[..|u| + 1] == " " + u;
      r
  }

  /** The label: "Just now", or the count followed by its suffix. */
  function Render(e: Elapsed): (r: string)
    ensures e.JustNow? ==> r == "Just now"
    ensures !e.JustNow? ==> Text.StartsWith(r, Text.NatToString(e.n))
  {
    match e
    case JustNow => "Just now"
    case _ => Text.NatToString(e.n) + Suffix(e)
  }

  /** `getTimeAgo(date)` read at time `now`. */
  function TimeAgo(now: int, date: int): (r: string)
    ensures r == "Just now" <==> now - date < 60000
    ensures now - date >= 60000 ==>
      var e := Bucket(ElapsedSeconds(now, date));
      && Text.DigitsValue(Text.TakeDigits(r)) == e.n
      && Text.StartsWith(r, Text.NatToString(e.n) + " " + Unit(e))
      && (Text.EndsWith(r, "s ago") <==> e.n > 1)
  {
    var e := Bucket(ElapsedSeconds(now, date));
    if e.JustNow? then Render(e)
    else
      RenderReadsBack(e);
      Render(e)
  }

  /** A label other than "Just now" starts with the count, which reads back from
      its leading digits, and takes the plural "s" exactly when the count is
      above 1. */
  lemma RenderReadsBack(e: Elapsed)
    requires !e.JustNow?
    ensures Text.DigitsValue(Text.TakeDigits(Render(e))) == e.n
    ensures Text.StartsWith(Render(e), Text.NatToString(e.n) + " " + Unit(e))
    ensures Text.EndsWith(Render(e), "s ago") <==> e.n > 1
    ensures Render(e) != "Just now"
  {
    var d, t := Text.NatToString(e.n), Suffix(e);
    LabelReadsBack(e.n, t);
    EndsWithAppend(d, t, "s ago");
    var p := " " + Unit(e);
    assert (d + t)[..|d| + |p|] == d + t[..|p|];
    assert d + p == d + " " + Unit(e);
  }

  /** The count reads back from a label made of the count and a suffix that starts
      with a space, and that label is never "Just now". */
  lemma LabelReadsBack(n: nat, t: string)
    requires t != [] && t[0] == ' '
    ensures Text.DigitsValue(Text.TakeDigits(Text.NatToString(n) + t)) == n
    ensures Text.NatToString(n) + t != "Just now"
  {
    var d := Text.NatToString(n);
    Text.TakeDigitsPrefix(d, t);
    Text.DigitsValueNatToString(n);
    assert (d + t)[0] == d[0] != 'J';
  }

  /** A string ends with `p` when the part appended to it does, if `p` is no longer. */
  lemma EndsWithAppend(d: string, t: string, p: string)
    requires |p| <= |t|
    ensures Text.EndsWith(d + t, p) <==> Text.EndsWith(t, p)
  {
    assert (d + t)[|d + t| - |p|..] == t[|t| - |p|..];
  }

  // ---------------------------------------------------------------------------
  // Tags

  function TrimAll(pieces: seq<string>): (r: seq<string>)
    ensures |r| == |pieces|
    ensures forall i :: 0 <= i < |r| ==> r[i] == Text.Trim(pieces[i])
  {
    if pieces == [] then [] else [Text.Trim(pieces[0])] + TrimAll(pieces[1..])
  }

  function NonEmpty(t: string): bool {
    t != ""
  }

  /** Trimming never brings in a character the string did not have. */
  lemma TrimKeepsOut(s: string, c: char)
    requires c !in s
    ensures c !in Text.Trim(s)
  {
    var t := Text.Trim(s);
    var i :| 0 <= i <= |s| - |t| && Text.OccursAt(s, t, i);
    forall k | 0 <= k < |t| ensures t[k] != c {
      assert t[k] == s[i + k];
    }
  }

  /** Trimming the pieces of a split leaves them comma-free. */
  lemma TrimAllKeepsOut(pieces: seq<string>, c: char)
    requires forall i :: 0 <= i < |pieces| ==> c !in pieces[i]
    ensures forall i :: 0 <= i < |pieces| ==> c !in TrimAll(pieces)[i]
  {
    forall i | 0 <= i < |pieces| ensures c !in TrimAll(pieces)[i] {
      TrimKeepsOut(pieces[i], c);
    }
  }

  /** `tags.split(',').map(t => t.trim()).filter(t => t)`: every tag is non-empty,
      has no comma and no white space at either end, and every non-blank piece
      between commas gives a tag. */
  function ParseTags(tags: string): (r: seq<string>)
    ensures forall i :: 0 <= i < |r| ==> r[i] != "" && ',' !in r[i]
    ensures forall i :: 0 <= i < |r| ==> !Text.IsSpace(r[i][0]) && !Text.IsSpace(r[i][|r[i]| - 1])
    ensures forall p :: p in Text.Split(tags, ',') && !Text.IsBlank(p) ==> Text.Trim(p) in r
    ensures Lists.IsSubsequence(r, TrimAll(Text.Split(tags, ',')))
    ensures multiset(r) == multiset(TrimAll(Text.Split(tags, ',')))["" := 0]
  {
    var pieces := Text.Split(tags, ',');
    TrimAllKeepsOut(pieces, ',');
    Lists.FilterIsSubsequence(TrimAll(pieces), NonEmpty);
    NonBlankKept(pieces);
    TagCounts(TrimAll(pieces));
    Lists.Filter(TrimAll(pieces), NonEmpty)
  }

  /** The filter drops exactly the empty pieces, keeping every copy of the others. */
  lemma TagCounts(trimmed: seq<string>)
    ensures multiset(Lists.Filter(trimmed, NonEmpty)) == multiset(trimmed)["" := 0]
  {
    var r := Lists.Filter(trimmed, NonEmpty);
    forall t ensures multiset(r)[t] == multiset(trimmed)["" := 0][t] {
      assert NonEmpty(t) == (t != "");
    }
  }

  /** Each non-blank piece survives the filter, trimmed. */
  lemma NonBlankKept(pieces: seq<string>)
    ensures forall p :: p in pieces && !Text.IsBlank(p) ==> Text.Trim(p) in Lists.Filter(TrimAll(pieces), NonEmpty)
  {
    var trimmed := TrimAll(pieces);
    forall p | p in pieces && !Text.IsBlank(p) ensures Text.Trim(p) in Lists.Filter(trimmed, NonEmpty) {
      var i :| 0 <= i < |pieces| && pieces[i] == p;
      assert NonEmpty(trimmed[i]);
    }
  }

  /** Tags written out joined by commas parse back to themselves. */
  lemma ParseJoinedTags(tags: seq<string>)
    requires |tags| >= 1
    requires forall i :: 0 <= i < |tags| ==> tags[i] != "" && ',' !in tags[i]
    requires forall i :: 0 <= i < |tags| ==> !Text.IsSpace(tags[i][0]) && !Text.IsSpace(tags[i][|tags[i]| - 1])
    ensures ParseTags(Text.Join(tags, ',')) == tags
  {
    Text.SplitJoin(tags, ',');
    TrimAllTrimmed(tags);
    Lists.FilterAll(tags, NonEmpty);
    assert Lists.Filter(TrimAll(Text.Split(Text.Join(tags, ','), ',')), NonEmpty) == tags;
  }

  /** Pieces already without white space at their ends are left as they are. */
  lemma TrimAllTrimmed(tags: seq<string>)
    requires forall i :: 0 <= i < |tags| ==> tags[i] != "" && !Text.IsSpace(tags[i][0]) && !Text.IsSpace(tags[i][|tags[i]| - 1])
    ensures TrimAll(tags) == tags
  {
    forall i | 0 <= i < |tags| ensures Text.Trim(tags[i]) == tags[i] {
      Text.TrimTrimmed(tags[i]);
    }
  }

  // ---------------------------------------------------------------------------
  // Filtering the loaded posts

  /** A post as the page shows it; `timeAgo` is the label computed at load time. */
  datatype Post = Post(title: string, content: string, author: string, authorRole: string, category: string,
                       replies: nat, views: nat, likes: nat, timeAgo: string, tags: seq<string>)

  /** The tab "all" passes every post; any other tab needs that exact category. */
  predicate InTab(p: Post, tab: string) {
    tab == "all" || p.category == tab
  }

  /** The title or the content contains the query, ignoring case. */
  predicate MatchesQuery(p: Post, query: string) {
    Text.Contains(Text.Lower(p.title), Text.Lower(query)) || Text.Contains(Text.Lower(p.content), Text.Lower(query))
  }

  function Shown(tab: string, query: string): Post -> bool {
    (p: Post) => InTab(p, tab) && MatchesQuery(p, query)
  }

  /** `filteredPosts`: the posts in the tab that match the query, in loaded order. */
  function FilteredPosts(posts: seq<Post>, tab: string, query: string): (r: seq<Post>)
    ensures forall p :: p in r <==> p in posts && InTab(p, tab) && MatchesQuery(p, query)
    ensures forall p :: multiset(r)[p] == if InTab(p, tab) && MatchesQuery(p, query) then multiset(posts)[p] else 0
    ensures Lists.IsSubsequence(r, posts)
  {
    Lists.FilterIsSubsequence(posts, Shown(tab, query));
    Lists.Filter(posts, Shown(tab, query))
  }

  /** An empty query matches every post, so the "all" tab then shows them all. */
  lemma EmptyQueryShowsTab(posts: seq<Post>)
    ensures FilteredPosts(posts, "all", "") == posts
  {
    forall i | 0 <= i < |posts| ensures Shown("all", "")(posts[i]) {
      Text.ContainsEmpty(Text.Lower(posts[i].title));
    }
    Lists.FilterAll(posts, Shown("all", ""));
  }

  /** The search ignores the letter case of the query. */
  lemma QueryCaseIgnored(posts: seq<Post>, tab: string, query: string)
    ensures FilteredPosts(posts, tab, Text.Lower(query)) == FilteredPosts(posts, tab, query)
  {
    Text.LowerIdempotent(query);
    Lists.FilterCongruent(posts, Shown(tab, Text.Lower(query)), Shown(tab, query));
  }

  // ---------------------------------------------------------------------------
  // Publishing

  /** The new-article form. */
  datatype Draft = Draft(title: string, category: string, tags: string, content: string)

  /** The form's initial contents, restored after a publish. */
  const EmptyDraft: Draft := Draft("", "textbooks", "", "")

  /** The body `handlePublishArticle` sends. */
  datatype BlogRequest = BlogRequest(title: string, content: string, category: string, tags: seq<string>)

  function PublishRequest(d: Draft): (r: BlogRequest)
    ensures r.title == d.title && r.content == d.content && r.category == d.category
    ensures r.tags == ParseTags(d.tags)
    ensures forall i :: 0 <= i < |r.tags| ==> r.tags[i] != "" && ',' !in r.tags[i]
  {
    BlogRequest(d.title, d.content, d.category, ParseTags(d.tags))
  }

  /** The draft and whether the new-article dialog is open. */
  datatype Composer = Composer(draft: Draft, modalOpen: bool)

  /** After the request: on success the draft is reset and the dialog closed; on
      failure an alert is shown and both stay as they were. */
  function AfterPublish(c: Composer, succeeded: bool): (r: Composer)
    ensures succeeded ==> r.draft == EmptyDraft && !r.modalOpen
    ensures !succeeded ==> r == c
  {
    if succeeded then Composer(EmptyDraft, false) else c
  }
}
