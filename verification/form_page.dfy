/** The forum page (src/pages/blog/FormPage.jsx): the same tab and search filter
    as the blog page, over three fixed posts. */
module FormPage {
  import Text
  import Lists
  import opened BlogPage

  const Posts: seq<Post> := [
    Post("Best Physics textbook for JEE preparation?",
         "Looking for recommendations for physics books that cover JEE syllabus comprehensively...",
         "Rahul Kumar", "student", "textbooks", 12, 234, 18, "2 hours ago", ["JEE", "Physics", "Textbooks"]),
    Post("Organic Chemistry notes sharing",
         "I have compiled detailed notes for organic chemistry reactions. Happy to share with fellow students...",
         "Priya Sharma", "student", "notes", 8, 156, 25, "4 hours ago", ["Chemistry", "Notes", "Organic"]),
    Post("NEET Biology preparation strategy",
         "What is the most effective way to prepare biology for NEET? Should I focus more on NCERT or reference books?",
         "Central Library", "library", "exams", 15, 389, 32, "1 day ago", ["NEET", "Biology", "Strategy"])
  ]

  /** `filteredPosts` over the fixed posts, in their fixed order. */
  function FilteredFixed(tab: string, query: string): (r: seq<Post>)
    ensures forall p :: p in r <==> p in Posts && InTab(p, tab) && MatchesQuery(p, query)
    ensures Lists.IsSubsequence(r, Posts)
  {
    FilteredPosts(Posts, tab, query)
  }

  /** With the "all" tab and no query, the three posts are shown in order. */
  lemma StartShowsAllThree()
    ensures FilteredFixed("all", "") == Posts
    ensures |FilteredFixed("all", "")| == 3
  {
    EmptyQueryShowsTab(Posts);
  }

  /** With no query, each category tab shows exactly its own post, and the
      "general" tab shows none. */
  lemma TabsWithoutQuery(tab: string)
    requires tab in {"textbooks", "notes", "exams", "general"}
    ensures FilteredFixed(tab, "") ==
            if tab == "textbooks" then [Posts[0]]
            else if tab == "notes" then [Posts[1]]
            else if tab == "exams" then [Posts[2]]
            else []
  {
    var k := if tab == "textbooks" then 0 else if tab == "notes" then 1 else if tab == "exams" then 2 else 3;
    TabShows(Posts, tab, k);
  }

  /** Over three posts of distinct categories and no query, a tab other than
      "all" shows the post of that category, if any. */
  lemma TabShows(posts: seq<Post>, tab: string, k: nat)
    requires |posts| == 3 && tab != "all" && k <= 3
    requires forall i | 0 <= i < 3 :: posts[i].category == tab <==> i == k
    ensures FilteredPosts(posts, tab, "") == if k < 3 then [posts[k]] else []
  {
    var keep := Shown(tab, "");
    forall i | 0 <= i < 3 ensures keep(posts[i]) <==> i == k {
      Text.ContainsEmpty(Text.Lower(posts[i].title));
    }
    var t1, t2 := posts[1..], posts[1..][1..];
    assert t1[0] == posts[1] && t2 == [posts[2]] && t2[1..] == [];
    assert Lists.Filter(t2, keep) == if k == 2 then [posts[2]] else [];
    assert Lists.Filter(t1, keep) == (if k == 1 then [posts[1]] else []) + Lists.Filter(t2, keep);
    assert Lists.Filter(posts, keep) == (if k == 0 then [posts[0]] else []) + Lists.Filter(t1, keep);
  }
}
