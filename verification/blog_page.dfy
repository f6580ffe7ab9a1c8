/** The blog page: the word-limited excerpt shown on each card, and the
    detail modal's open/selected pair. */
module BlogPage {

  import opened Options
  import opened Text
  import opened Tables
  import BlogsApi

  /** The default word limit, which is also the limit the cards use. */
  const DefaultWordCount := 10

  const Ellipsis := "..."

  /** `words.slice(0, end)`: a negative end counts back from the end of the
      array, and the result never reaches past either end. */
  function SliceEnd(len: nat, end: int): (k: nat)
    ensures k <= len
    ensures 0 <= end ==> k == if end < len then end else len
    ensures end < 0 ==> k == if len + end < 0 then 0 else len + end
  {
    if end < 0 then (if len + end < 0 then 0 else len + end)
    else if end < len then end
    else len
  }

  /** `truncateToWords`: pieces are what `split(' ')` yields, so runs of
      spaces produce empty pieces that count toward the limit. */
  function TruncateToWords(description: string, wordCount: int): string
  {
    var words := Split(description, ' ');
    if |words| <= wordCount then description
    else Join(words[..SliceEnd(|words|, wordCount)], " ") + Ellipsis
  }

  /** The excerpt on a blog card. */
  function CardExcerpt(description: string): string
  {
    TruncateToWords(description, DefaultWordCount)
  }

  /** A description of at most `wordCount` pieces is shown whole; a longer
      one is its first `wordCount` pieces followed by "...". A negative
      limit, as `slice` reads it, drops that many pieces from the end (all
      of them when it exceeds their number), and always truncates since
      there is at least one piece. */
  lemma TruncateCases(description: string, wordCount: int)
    ensures var words := Split(description, ' ');
            var r := TruncateToWords(description, wordCount);
            && (|words| <= wordCount ==> r == description)
            && (0 <= wordCount < |words| ==> r == Join(words[..wordCount], " ") + Ellipsis)
            && (wordCount < 0 ==>
                  var kept := if |words| + wordCount < 0 then 0 else |words| + wordCount;
                  r == Join(words[..kept], " ") + Ellipsis)
  {
  }

  /** Whatever precedes the appended "..." is a prefix of the description. */
  lemma {:induction false} TruncatedIsPrefix(description: string, wordCount: int)
    ensures var r := TruncateToWords(description, wordCount);
            r == description
            || (|r| >= 3 && r[|r| - 3..] == Ellipsis && IsPrefix(r[..|r| - 3], description))
  {
    var words := Split(description, ' ');
    if |words| > wordCount {
      var k := SliceEnd(|words|, wordCount);
      var head := Join(words[..k], " ");
      var r := head + Ellipsis;
      JoinPrefix(words, " ", k);
      JoinSplit(description, ' ');
      assert r[..|r| - 3] == head;
      assert r[|r| - 3..] == Ellipsis;
    }
  }

  /** Truncating an excerpt again changes nothing, for any limit that is not
      negative. */
  lemma {:induction false} TruncateIdempotent(description: string, wordCount: int)
    requires wordCount >= 0
    ensures var once := TruncateToWords(description, wordCount);
            TruncateToWords(once, wordCount) == once
  {
    var words := Split(description, ' ');
    if |words| > wordCount {
      var once := Join(words[..wordCount], " ") + Ellipsis;
      assert TruncateToWords(description, wordCount) == once;
      if wordCount == 0 {
        assert words[..0] == [];
        assert once == Ellipsis;
        assert NoSeparator([Ellipsis], ' ');
        SplitJoin([Ellipsis], ' ');
      } else {
        var head := words[..wordCount];
        var pieces := head[..|head| - 1] + [head[|head| - 1] + Ellipsis];
        JoinAppendLast(head, " ", Ellipsis);
        assert Join(pieces, [' ']) == once;
        assert NoSeparator(pieces, ' ') by {
          forall i | 0 <= i < |pieces| ensures ' ' !in pieces[i] {
            if i < |head| - 1 {
              assert pieces[i] == words[i];
            } else {
              assert pieces[i] == words[wordCount - 1] + Ellipsis;
              assert ' ' !in words[wordCount - 1];
            }
          }
        }
        SplitJoin(pieces, ' ');
        assert |Split(once, ' ')| == wordCount;
      }
    }
  }

  /** With a negative limit `slice` counts from the end, so a second
      truncation can cut again: "a b" at -1 gives "a...", and "a..." at -1
      gives "...". */
  lemma NegativeLimitCutsAgain()
    ensures TruncateToWords("a b", -1) == "a..."
    ensures TruncateToWords("a...", -1) == "..."
  {
    var two := ["a", "b"];
    assert NoSeparator(two, ' ') by {
      assert forall i :: 0 <= i < |two| ==> two[i] in {"a", "b"};
    }
    assert Join(two, " ") == "a b";
    SplitJoin(two, ' ');
    assert two[..1] == ["a"];
    assert NoSeparator(["a..."], ' ');
    assert Join(["a..."], " ") == "a...";
    SplitJoin(["a..."], ' ');
    assert ["a..."][..0] == [];
  }

  /** Two spaces in a row leave an empty piece, which counts as a word:
      "a  b" has three pieces and a limit of two cuts it. */
  lemma EmptyPiecesCount()
    ensures Split("a  b", ' ') == ["a", "", "b"]
    ensures TruncateToWords("a  b", 2) == "a ..."
  {
    var pieces := ["a", "", "b"];
    assert NoSeparator(pieces, ' ') by {
      assert forall i :: 0 <= i < |pieces| ==> pieces[i] in {"a", "", "b"};
    }
    assert Join(pieces, " ") == "a  b";
    SplitJoin(pieces, ' ');
    assert ["a", "", "b"][..2] == ["a", ""];
    assert Join(["a", ""], " ") == "a" + " " + Join([""], " ");
  }

  // ---------------------------------------------------------------------
  // The detail modal

  type BlogCard = Row<BlogsApi.Blog>

  /** `selectedBlog` and `isModalOpen`. */
  datatype Modal = Modal(selected: Option<BlogCard>, open: bool)

  const Closed := Modal(None, false)

  /** The modal is drawn only when it is open and a blog is selected. */
  function Shown(m: Modal): (r: Option<BlogCard>)
    ensures r.Some? <==> m.open && m.selected.Some?
    ensures r.Some? ==> r == m.selected
  {
    if m.open && m.selected.Some? then m.selected else None
  }

  /** "Read More" on a card. */
  function OpenModal(m: Modal, blog: BlogCard): (r: Modal)
    ensures Shown(r) == Some(blog)
  {
    Modal(Some(blog), true)
  }

  /** The close button, a click on the backdrop, or Escape while open. */
  function CloseModal(m: Modal): (r: Modal)
    ensures Shown(r).None?
    ensures r == Closed
  {
    Modal(None, false)
  }

  /** The Escape key: the listener is attached only while the modal is
      open. */
  function PressEscape(m: Modal): (r: Modal)
    ensures m.open ==> r == Closed
    ensures !m.open ==> r == m
  {
    if m.open then CloseModal(m) else m
  }

  /** The two flags always move together. */
  predicate Consistent(m: Modal)
  {
    m.open <==> m.selected.Some?
  }

  /** Every transition keeps the flags together, so whenever the modal is
      open it shows a blog. */
  lemma TransitionsKeepConsistent(m: Modal, blog: BlogCard)
    requires Consistent(m)
    ensures Consistent(OpenModal(m, blog)) && Consistent(CloseModal(m)) && Consistent(PressEscape(m))
    ensures Consistent(m) ==> (m.open <==> Shown(m).Some?)
  {
  }
}
