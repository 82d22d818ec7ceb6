/** The notes marketplace list (src/pages/notes/NotesPage.jsx): the loaded notes
    filtered by the search box and the subject buttons. */
module NotesPage {
  import Text
  import Lists

  /** A note as the page holds it; `classLevel` is the `class` field and `author`
      the author's name. */
  datatype Note = Note(title: string, subject: string, classLevel: string, board: string, author: string,
                       price: real, rating: real, downloads: real, pages: real)

  /** An empty query matches every note; otherwise the title or the subject
      contains the query, ignoring case. */
  predicate MatchesSearch(n: Note, query: string) {
    || query == ""
    || Text.Contains(Text.Lower(n.title), Text.Lower(query))
    || Text.Contains(Text.Lower(n.subject), Text.Lower(query))
  }

  /** "All" passes every note; any other choice needs that exact subject. */
  predicate MatchesCategory(n: Note, category: string) {
    category == "All" || n.subject == category
  }

  function Shown(query: string, category: string): Note -> bool {
    (n: Note) => MatchesSearch(n, query) && MatchesCategory(n, category)
  }

  /** `filteredNotes`: the matching notes as an order-preserving sub-list of the
      loaded ones. */
  function FilteredNotes(notes: seq<Note>, query: string, category: string): (r: seq<Note>)
    ensures forall n :: n in r <==> n in notes && MatchesSearch(n, query) && MatchesCategory(n, category)
    ensures forall n ::
      multiset(r)[n] == if MatchesSearch(n, query) && MatchesCategory(n, category) then multiset(notes)[n] else 0
    ensures Lists.IsSubsequence(r, notes)
    ensures |r| <= |notes|
  {
    Lists.FilterIsSubsequence(notes, Shown(query, category));
    Lists.Filter(notes, Shown(query, category))
  }

  /** The "Showing N notes" line: the length of the filtered list, never more
      than the number loaded, and all of them before any search or choice. */
  function ShownCount(notes: seq<Note>, query: string, category: string): (count: nat)
    ensures count == |FilteredNotes(notes, query, category)|
    ensures count <= |notes|
    ensures query == "" && category == "All" ==> count == |notes|
  {
    Lists.FilterAll(notes, Shown("", "All"));
    |FilteredNotes(notes, query, category)|
  }

  /** The search ignores the letter case of the query. */
  lemma QueryCaseIgnored(notes: seq<Note>, query: string, category: string)
    ensures FilteredNotes(notes, Text.Lower(query), category) == FilteredNotes(notes, query, category)
  {
    Text.LowerIdempotent(query);
    assert Text.Lower(query) == "" <==> query == "";
    Lists.FilterCongruent(notes, Shown(Text.Lower(query), category), Shown(query, category));
  }

  /** Narrowing by subject only ever removes notes from the "All" list. */
  lemma CategoryNarrows(notes: seq<Note>, query: string, category: string)
    ensures Lists.IsSubsequence(FilteredNotes(notes, query, category), FilteredNotes(notes, query, "All"))
  {
    FilterNarrows(notes, Shown(query, category), Shown(query, "All"));
  }

  /** A stronger filter keeps a sub-list of what a weaker one keeps. */
  lemma {:induction false} FilterNarrows(s: seq<Note>, p: Note -> bool, q: Note -> bool)
    requires forall i :: 0 <= i < |s| && p(s[i]) ==> q(s[i])
    ensures Lists.IsSubsequence(Lists.Filter(s, p), Lists.Filter(s, q))
  {
    if s != [] {
      FilterNarrows(s[1..], p, q);
      if p(s[0]) {
        assert Lists.Filter(s, p)[1..] == Lists.Filter(s[1..], p);
        assert Lists.Filter(s, q)[1..] == Lists.Filter(s[1..], q);
      } else if q(s[0]) {
        Lists.SubsequenceCons(Lists.Filter(s[1..], p), Lists.Filter(s[1..], q), s[0]);
      }
    }
  }
}
