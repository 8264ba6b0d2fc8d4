/**
 * The text document of the trend service (`generateTxtContent`): a fixed
 * header, the title and link of every item, six line feeds, and the link of
 * every item again.
 */
module TxtContent {
  import opened Strings
  import opened TrendFeed

  /** The fixed header, ending in "出典" (source). */
  const Header: string :=
    "本日のQiitaのトレンドをAIでまとめています。" + "\n"
    + "通勤時や退勤時などにながら聞きしてはいかがでしょうか？" + "\n"
    + "気になった記事は下記リンクから詳細へ！" + "\n"
    + "\n"
    + "出典"

  /** The header, line by line. */
  const HeaderLines: seq<string> := ["本日のQiitaのトレンドをAIでまとめています。", "通勤時や退勤時などにながら聞きしてはいかがでしょうか？", "気になった記事は下記リンクから詳細へ！", "", "出典"]

  /** `${item.title}\n${item.link}` */
  function TitleAndLink(item: QiitaItem): (block: string) {
    item.title + "\n" + item.link
  }

  /** One title-and-link block per item, in order. */
  function Blocks(items: seq<QiitaItem>): (blocks: seq<string>)
    ensures |blocks| == |items|
    ensures forall i :: 0 <= i < |items| ==> blocks[i] == TitleAndLink(items[i])
  {
    if items == [] then [] else [TitleAndLink(items[0])] + Blocks(items[1..])
  }

  /** The link of every item, in order. */
  function Links(items: seq<QiitaItem>): (links: seq<string>)
    ensures |links| == |items|
    ensures forall i :: 0 <= i < |items| ==> links[i] == items[i].link
  {
    if items == [] then [] else [items[0].link] + Links(items[1..])
  }

  /** `generateTxtContent`. */
  function GenerateTxtContent(items: seq<QiitaItem>): (text: string) {
    Header + "\n" + Join(Blocks(items), "\n") + "\n\n\n\n\n\n" + Join(Links(items), "\n")
  }

  /** The header is its five lines joined by line feeds, none of which holds a line feed. */
  lemma HeaderIsLines()
    ensures forall i :: 0 <= i < |HeaderLines| ==> '\n' !in HeaderLines[i]
    ensures Header == Join(HeaderLines, "\n")
  {
    assert Join(HeaderLines, "\n") == HeaderLines[0] + "\n" + HeaderLines[1] + "\n" + HeaderLines[2] + "\n" + HeaderLines[3] + "\n" + HeaderLines[4];
  }

  /** The lines of the title-and-link list: each item's title, then its link, item after item. */
  function TitleLinkLines(items: seq<QiitaItem>): (lines: seq<string>)
    ensures |lines| == 2 * |items|
    ensures forall i :: 0 <= i < |items| ==> lines[2 * i] == items[i].title && lines[2 * i + 1] == items[i].link
  {
    if items == [] then []
    else
      var rest := TitleLinkLines(items[1..]);
      var lines := [items[0].title, items[0].link] + rest;
      assert forall i :: 1 <= i < |items| ==> lines[2 * i] == rest[2 * (i - 1)] && lines[2 * i + 1] == rest[2 * (i - 1) + 1];
      lines
  }

  /** The five empty lines between the two lists (six line feeds in a row). */
  const Gap: seq<string> := ["", "", "", "", ""]

  /** No title and no link spans more than one line. */
  predicate SingleLine(items: seq<QiitaItem>) {
    forall i :: 0 <= i < |items| ==> '\n' !in items[i].title && '\n' !in items[i].link
  }

  /** Joining the title-and-link blocks is joining their lines. */
  lemma {:induction false} BlocksJoin(items: seq<QiitaItem>)
    requires items != []
    ensures Join(Blocks(items), "\n") == Join(TitleLinkLines(items), "\n")
  {
    var t, l := items[0].title, items[0].link;
    var lines := TitleLinkLines(items);
    assert lines[1..] == [l] + TitleLinkLines(items[1..]);
    if |items| == 1 {
      assert lines[1..] == [l];
    } else {
      var rest := TitleLinkLines(items[1..]);
      assert ([l] + rest)[1..] == rest;
      assert Blocks(items)[1..] == Blocks(items[1..]);
      BlocksJoin(items[1..]);
    }
  }

  /**
   * For a non-empty item list the document is, line by line: the header, the
   * title and the link of every item, five empty lines, and the link of every
   * item.
   */
  lemma TxtDecomposition(items: seq<QiitaItem>)
    requires items != []
    ensures GenerateTxtContent(items) == Join(HeaderLines + TitleLinkLines(items) + Gap + Links(items), "\n")
  {
    var nl := "\n";
    var T, L := TitleLinkLines(items), Links(items);
    BlocksJoin(items);
    HeaderIsLines();
    JoinConcat(HeaderLines + T + Gap, L, nl);
    JoinConcat(HeaderLines + T, Gap, nl);
    JoinConcat(HeaderLines, T, nl);
    assert Join(Gap, nl) == "\n\n\n\n";
  }

  /** With single-line titles and links, the document splits into exactly those lines. */
  lemma TxtLines(items: seq<QiitaItem>)
    requires items != [] && SingleLine(items)
    ensures Lines(GenerateTxtContent(items)) == HeaderLines + TitleLinkLines(items) + Gap + Links(items)
  {
    var all := HeaderLines + TitleLinkLines(items) + Gap + Links(items);
    TxtDecomposition(items);
    AllSingleLine(items);
    SplitJoin(all, '\n');
  }

  /** None of the document's lines holds a line feed when no title or link does. */
  lemma AllSingleLine(items: seq<QiitaItem>)
    requires SingleLine(items)
    ensures var all := HeaderLines + TitleLinkLines(items) + Gap + Links(items);
      forall j :: 0 <= j < |all| ==> '\n' !in all[j]
  {
    var T, L := TitleLinkLines(items), Links(items);
    HeaderIsLines();
    TitleLinkLinesSingle(items);
    assert forall j :: 0 <= j < |L| ==> '\n' !in L[j];
    var all := HeaderLines + T + Gap + L;
    forall j | 0 <= j < |all|
      ensures '\n' !in all[j]
    {
      if j < |HeaderLines| {
        assert all[j] == HeaderLines[j];
      } else if j < |HeaderLines| + |T| {
        assert all[j] == T[j - |HeaderLines|];
      } else if j < |HeaderLines| + |T| + |Gap| {
        assert all[j] == Gap[j - |HeaderLines| - |T|];
      } else {
        assert all[j] == L[j - |HeaderLines| - |T| - |Gap|];
      }
    }
  }

  /** Every title-and-link line is a single line when titles and links are. */
  lemma TitleLinkLinesSingle(items: seq<QiitaItem>)
    requires SingleLine(items)
    ensures forall j :: 0 <= j < |TitleLinkLines(items)| ==> '\n' !in TitleLinkLines(items)[j]
  {
    var T := TitleLinkLines(items);
    forall j | 0 <= j < |T|
      ensures '\n' !in T[j]
    {
      var i := j / 2;
      assert 0 <= i < |items|;
      if j == 2 * i {
        assert T[j] == items[i].title;
      } else {
        assert j == 2 * i + 1;
        assert T[j] == items[i].link;
      }
    }
  }

  /** An empty item list leaves the header followed by seven line feeds. */
  lemma TxtEmpty()
    ensures GenerateTxtContent([]) == Header + "\n\n\n\n\n\n\n"
  {
  }

  /**
   * The lines of a document have a header, two lines per item, five empty
   * lines and one line per item; the i-th item's title and link are lines
   * 5 + 2i and 5 + 2i + 1 (counting from 0), and its link is line i of the
   * trailing list.
   */
  predicate ItemLines(lines: seq<string>, items: seq<QiitaItem>, i: nat)
    requires i < |items|
  {
    var start := |HeaderLines| + 2 * |items| + |Gap|;
    && |lines| == start + |items|
    && lines[|HeaderLines| + 2 * i] == items[i].title
    && lines[|HeaderLines| + 2 * i + 1] == items[i].link
    && lines[start + i] == items[i].link
  }

  /**
   * Both lists hold every item exactly once, in input order: the first list
   * the title and the link of the i-th item on two lines, the trailing list
   * its link on the i-th line after the five empty ones.
   */
  lemma DocumentLineAt(items: seq<QiitaItem>, i: nat)
    requires SingleLine(items) && i < |items|
    ensures ItemLines(Lines(GenerateTxtContent(items)), items, i)
  {
    var T, L := TitleLinkLines(items), Links(items);
    var all := HeaderLines + T + Gap + L;
    LinesAt(HeaderLines, T, Gap, L, 2 * i, i);
    LinesAt(HeaderLines, T, Gap, L, 2 * i + 1, i);
    assert ItemLines(all, items, i);
    TxtLines(items);
  }

  /** Where a line of the middle list and a line of the last list sit in the whole document. */
  lemma LinesAt(h: seq<string>, t: seq<string>, g: seq<string>, l: seq<string>, j: nat, k: nat)
    requires j < |t| && k < |l|
    ensures (h + t + g + l)[|h| + j] == t[j]
    ensures (h + t + g + l)[|h| + |t| + |g| + k] == l[k]
  {
    assert h + t + g + l == h + (t + (g + l));
  }
}
