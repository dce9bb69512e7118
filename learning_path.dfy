/** The learning path of the term-sheet page (src/pages/ResearchPaper.tsx):
    the list of saved papers, extended without duplicating a title and
    pruned by title. */
module LearningPath {
  import opened Wrappers
  import opened Text

  /** A saved paper; `None` is JavaScript's `null`. */
  datatype Paper = Paper(title: Option<string>, summary: Option<string>, link: Option<string>)

  /** Some saved paper has this title (`p.title === title`, so two null
      titles are equal). */
  predicate HasTitle(papers: seq<Paper>, title: Option<string>) {
    exists i :: 0 <= i < |papers| && papers[i].title == title
  }

  /** No two saved papers share a title. */
  predicate TitlesUnique(papers: seq<Paper>) {
    forall i, j :: 0 <= i < j < |papers| ==> papers[i].title != papers[j].title
  }

  /** `addToLearningPath`: a paper whose title is already saved is not
      added again; any other paper is appended. */
  function AddPaper(papers: seq<Paper>, paper: Paper): (r: seq<Paper>)
    ensures HasTitle(papers, paper.title) ==> r == papers
    ensures !HasTitle(papers, paper.title) ==> r == papers + [paper]
    ensures TitlesUnique(papers) ==> TitlesUnique(r)
    ensures HasTitle(r, paper.title)
  {
    if exists i :: 0 <= i < |papers| && papers[i].title == paper.title then papers
    else
      var r := papers + [paper];
      assert r[|papers|].title == paper.title;
      r
  }

  /** `savedPapers.filter(p => p.title !== title)`: the papers with another
      title, in their order and with their multiplicity. */
  function WithoutTitle(papers: seq<Paper>, title: string): (r: seq<Paper>)
    ensures |r| <= |papers|
    ensures forall p :: p in r <==> p in papers && p.title != Some(title)
    decreases |papers|
  {
    if papers == [] then []
    else
      var rest := WithoutTitle(papers[1..], title);
      assert forall p :: p in papers <==> p == papers[0] || p in papers[1..];
      if papers[0].title != Some(title) then [papers[0]] + rest else rest
  }

  /** The filter keeps the other papers in their order and with their
      multiplicity: a paper with another title occurs as often as before. */
  lemma {:induction false} WithoutTitleKeepsOrder(papers: seq<Paper>, title: string)
    ensures IsSubsequence(WithoutTitle(papers, title), papers)
    ensures forall p: Paper :: p.title != Some(title) ==>
              multiset(WithoutTitle(papers, title))[p] == multiset(papers)[p]
    ensures forall p: Paper :: p.title == Some(title) ==> multiset(WithoutTitle(papers, title))[p] == 0
    decreases |papers|
  {
    if papers != [] {
      var rest := WithoutTitle(papers[1..], title);
      WithoutTitleKeepsOrder(papers[1..], title);
      assert papers == [papers[0]] + papers[1..];
      assert multiset(papers) == multiset{papers[0]} + multiset(papers[1..]);
      if papers[0].title != Some(title) {
        var r := [papers[0]] + rest;
        assert r[1..] == rest;
        assert multiset(r) == multiset{papers[0]} + multiset(rest);
      }
    }
  }

  /** `removeFromLearningPath`: a null or empty title changes nothing;
      otherwise every paper with that title goes and the others stay, in
      order. */
  function RemovePaper(papers: seq<Paper>, title: Option<string>): (r: seq<Paper>)
    ensures title.None? || title == Some("") ==> r == papers
    ensures title.Some? && title.value != "" ==> r == WithoutTitle(papers, title.value)
  {
    if title.None? || title.value == "" then papers else WithoutTitle(papers, title.value)
  }

  /** Removing keeps the saved titles unique, and nothing with the removed
      title is left. */
  lemma {:induction false} RemovePaperKeepsUnique(papers: seq<Paper>, title: Option<string>)
    requires TitlesUnique(papers)
    ensures TitlesUnique(RemovePaper(papers, title))
    ensures title.Some? && title.value != "" ==> !HasTitle(RemovePaper(papers, title), title)
  {
    if title.Some? && title.value != "" {
      WithoutTitleKeepsUnique(papers, title.value);
      var r := RemovePaper(papers, title);
      forall i | 0 <= i < |r| ensures r[i].title != title {
        assert r[i] in r;
      }
    }
  }

  lemma {:induction false} WithoutTitleKeepsUnique(papers: seq<Paper>, title: string)
    requires TitlesUnique(papers)
    ensures TitlesUnique(WithoutTitle(papers, title))
    decreases |papers|
  {
    if papers != [] {
      var tail := papers[1..];
      assert TitlesUnique(tail) by {
        forall i, j | 0 <= i < j < |tail| ensures tail[i].title != tail[j].title {
          assert tail[i] == papers[i + 1] && tail[j] == papers[j + 1];
        }
      }
      WithoutTitleKeepsUnique(tail, title);
      var rest := WithoutTitle(tail, title);
      if papers[0].title != Some(title) {
        HeadTitleNotInRest(papers, title);
        var r := [papers[0]] + rest;
        forall i, j | 0 <= i < j < |r| ensures r[i].title != r[j].title {
          if i == 0 {
            assert r[j] in rest;
          } else {
            assert r[i] == rest[i - 1] && r[j] == rest[j - 1];
          }
        }
      }
    }
  }

  /** With unique titles, the first paper's title is not among the papers
      kept from the rest. */
  lemma HeadTitleNotInRest(papers: seq<Paper>, title: string)
    requires TitlesUnique(papers) && papers != []
    ensures forall p :: p in WithoutTitle(papers[1..], title) ==> p.title != papers[0].title
  {
    forall p | p in WithoutTitle(papers[1..], title) ensures p.title != papers[0].title {
      assert p in papers[1..];
      var k :| 0 <= k < |papers[1..]| && papers[1..][k] == p;
      assert papers[k + 1] == p;
    }
  }

  /** Removing a paper just added under a new, nonempty title restores the
      list it was added to. */
  lemma AddThenRemove(papers: seq<Paper>, paper: Paper)
    requires paper.title.Some? && paper.title.value != ""
    requires !HasTitle(papers, paper.title)
    ensures RemovePaper(AddPaper(papers, paper), paper.title) == papers
  {
    WithoutTitleAppend(papers, paper);
  }

  lemma {:induction false} WithoutTitleAppend(papers: seq<Paper>, paper: Paper)
    requires paper.title.Some?
    requires !HasTitle(papers, paper.title)
    ensures WithoutTitle(papers + [paper], paper.title.value) == papers
    decreases |papers|
  {
    if papers == [] {
      assert [paper][1..] == [];
    } else {
      assert (papers + [paper])[1..] == papers[1..] + [paper];
      assert papers[0].title != paper.title;
      assert !HasTitle(papers[1..], paper.title) by {
        forall i | 0 <= i < |papers[1..]| ensures papers[1..][i].title != paper.title {
          assert papers[1..][i] == papers[i + 1];
        }
      }
      WithoutTitleAppend(papers[1..], paper);
      assert papers == [papers[0]] + papers[1..];
    }
  }
}
