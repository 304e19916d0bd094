/** Sharing a finished tier list: the plain-text summary, the emoji per tier,
    and the order in which the share channels are tried. */
module ShareUtils {
  import opened Util
  import opened Types
  import Categories

  /** `getCategoryEmoji`: the four tier names, compared in lower case, have
      their own emoji; every other name gets a football. */
  function CategoryEmoji(categoryName: string): (e: string)
    ensures e == "🐐" <==> ToLower(categoryName) == "goat"
    ensures e == "👍" <==> ToLower(categoryName) == "хорош"
    ensures e == "👌" <==> ToLower(categoryName) == "норм"
    ensures e == "👎" <==> ToLower(categoryName) == "бездарь"
  {
    var key := ToLower(categoryName);
    if key == "goat" then "🐐"
    else if key == "хорош" then "👍"
    else if key == "норм" then "👌"
    else if key == "бездарь" then "👎"
    else "⚽"
  }

  /** Every tier of the standard table has an emoji of its own; the compact
      table's last tier, named differently from the map's key, falls back to
      the football. */
  lemma TierEmojis()
    ensures forall i, j :: 0 <= i < j < 4 ==>
      CategoryEmoji(Categories.StandardCategories()[i].name) != CategoryEmoji(Categories.StandardCategories()[j].name)
    ensures forall i :: 0 <= i < 4 ==> CategoryEmoji(Categories.StandardCategories()[i].name) != "⚽"
    ensures CategoryEmoji(Categories.CompactCategories()[3].name) == "⚽"
  {
    var std := Categories.StandardCategories();
    assert ToLower(std[0].name) == "goat";
    assert ToLower(std[1].name) == "хорош";
    assert ToLower(std[2].name) == "норм";
    assert ToLower(std[3].name) == "бездарь";
    var last := Categories.CompactCategories()[3].name;
    assert |ToLower(last)| == 6;
  }

  /** The football is the fallback and nothing else: it is returned exactly
      for the names whose lower case is none of the four keys. */
  lemma EmojiFallback(categoryName: string)
    ensures CategoryEmoji(categoryName) == "⚽" <==>
              ToLower(categoryName) !in {"goat", "хорош", "норм", "бездарь"}
  {
  }

  /** The emoji does not depend on the letter case of the name. */
  lemma CategoryEmojiIgnoresCase(categoryName: string)
    ensures CategoryEmoji(ToLower(categoryName)) == CategoryEmoji(categoryName)
    ensures CategoryEmoji(ToUpper(categoryName)) == CategoryEmoji(categoryName)
  {
    ToLowerIgnoresCase(categoryName);
  }

  const Signature: string := "⚽ Создано в боте @myach_pro_bot"

  const EmptyTierLine: string := "— Пусто\n"

  /** The first line and the blank line after it. */
  function Header(clubName: string): string {
    "🏆 ТИР-ЛИСТ ИГРОКОВ \"" + ToUpper(clubName) + "\"\n\n"
  }

  /** The heading of one tier: emoji, upper-cased name and `(count/slots)`. */
  function BlockHead(category: Category, count: nat): string {
    CategoryEmoji(category.name) + " " + ToUpper(category.name)
      + " (" + NatToString(count) + "/" + IntToString(category.slots) + "):\n"
  }

  /** The line of the player at `index`, numbered from one. */
  function PlayerLine(index: nat, player: Player): string {
    NatToString(index + 1) + ". " + player.name + "\n"
  }

  /** The pieces of `parts` written one after the other. */
  function Concat(parts: seq<string>): string
    decreases |parts|
  {
    if |parts| == 0 then "" else Concat(parts[..|parts| - 1]) + parts[|parts| - 1]
  }

  /** Writing two runs of pieces is writing each run, in order. */
  lemma {:induction false} ConcatAppend(a: seq<string>, b: seq<string>)
    ensures Concat(a + b) == Concat(a) + Concat(b)
    decreases |b|
  {
    if |b| == 0 {
      assert a + b == a;
    } else {
      var n := |b| - 1;
      assert (a + b)[..|a| + n] == a + b[..n];
      ConcatAppend(a, b[..n]);
    }
  }

  /** Piece `i` is written right after the pieces before it. */
  lemma ConcatLayout(parts: seq<string>, i: nat)
    requires i < |parts|
    ensures OccursAt(Concat(parts), parts[i], |Concat(parts[..i])|)
  {
    ConcatAppend(parts[..i], [parts[i]]);
    assert Concat([parts[i]]) == parts[i] by {
      assert [parts[i]][..0] == [];
    }
    ConcatAppend(parts[..i + 1], parts[i + 1..]);
    assert parts[..i] + [parts[i]] == parts[..i + 1];
    assert parts[..i + 1] + parts[i + 1..] == parts;
    var at := |Concat(parts[..i])|;
    var whole := Concat(parts);
    assert whole == Concat(parts[..i]) + parts[i] + Concat(parts[i + 1..]);
    assert whole[at..at + |parts[i]|] == parts[i];
  }

  /** The numbered lines of `players`, in list order. */
  function Lines(players: seq<Player>): (lines: seq<string>)
    ensures |lines| == |players|
  {
    seq(|players|, k requires 0 <= k < |players| => PlayerLine(k, players[k]))
  }

  /** One tier's block: heading, the numbered players or the empty marker,
      and a blank line. */
  function Block(category: Category, players: seq<Player>): string {
    BlockHead(category, |players|)
      + (if |players| > 0 then Concat(Lines(players)) else EmptyTierLine) + "\n"
  }

  /** The block of each entry of `categories`, in array order, each showing
      the players stored under its name (none when the name is missing). */
  function Blocks(categorized: CategorizedPlayers, categories: seq<Category>): (blocks: seq<string>)
    ensures |blocks| == |categories|
  {
    seq(|categories|, i requires 0 <= i < |categories| =>
      Block(categories[i], PlayersIn(categorized, categories[i].name)))
  }

  /** The summary `generateShareText` builds. */
  function ShareText(categorized: CategorizedPlayers, categories: seq<Category>, clubName: string): string {
    Header(clubName) + Concat(Blocks(categorized, categories)) + Signature
  }

  /** `generateShareText`: appends the header, then for each category its
      heading and its players line by line, then the signature. */
  method GenerateShareText(categorized: CategorizedPlayers, categories: seq<Category>, clubName: string)
    returns (text: string)
    ensures text == ShareText(categorized, categories, clubName)
  {
    ghost var blocks := Blocks(categorized, categories);
    var header := Header(clubName);
    text := header;
    var i := 0;
    while i < |categories|
      invariant 0 <= i <= |categories|
      invariant text == header + Concat(blocks[..i])
    {
      ghost var before := text;
      text := AppendBlock(text, categories[i], PlayersIn(categorized, categories[i].name));
      AppendedStep(header, blocks, i, before, text);
      i := i + 1;
    }
    assert blocks[..i] == blocks;
    text := text + Signature;
  }

  /** The outer loop's step, on any pieces: appending piece `i` to the text
      written so far writes the first `i + 1` pieces. */
  lemma AppendedStep(header: string, parts: seq<string>, i: nat, before: string, after: string)
    requires i < |parts|
    requires before == header + Concat(parts[..i])
    requires after == before + parts[i]
    ensures after == header + Concat(parts[..i + 1])
  {
    assert parts[..i + 1][..i] == parts[..i];
  }

  /** One pass of the outer `forEach`: the heading, the players or the empty
      marker, and the blank line, appended to `text`. */
  method AppendBlock(text: string, category: Category, players: seq<Player>) returns (r: string)
    ensures r == text + Block(category, players)
  {
    r := text + BlockHead(category, |players|);
    if |players| > 0 {
      r := AppendPlayerLines(r, players);
    } else {
      r := r + EmptyTierLine;
    }
    r := r + "\n";
  }

  /** The inner `forEach`: one numbered line per player, appended to `text`. */
  method AppendPlayerLines(text: string, players: seq<Player>) returns (r: string)
    ensures r == text + Concat(Lines(players))
  {
    var lines := Lines(players);
    r := text;
    var k := 0;
    while k < |players|
      invariant 0 <= k <= |players|
      invariant r == text + Concat(lines[..k])
    {
      ghost var before := r;
      r := r + PlayerLine(k, players[k]);
      AppendedStep(text, lines, k, before, r);
      k := k + 1;
    }
    assert lines[..k] == lines;
  }

  /** The summary opens with the header, closes with the signature, and
      holds the block of the `i`-th category right after the blocks of the
      ones before it, so the blocks appear once each and in array order. */
  lemma ShareTextLayout(categorized: CategorizedPlayers, categories: seq<Category>, clubName: string, i: nat)
    requires i < |categories|
    ensures var text := ShareText(categorized, categories, clubName);
      && StartsWith(text, Header(clubName))
      && EndsWith(text, Signature)
      && OccursAt(text, Block(categories[i], PlayersIn(categorized, categories[i].name)),
                  |Header(clubName)| + |Concat(Blocks(categorized, categories)[..i])|)
  {
    PiecesLayout(ShareText(categorized, categories, clubName), Header(clubName),
                 Blocks(categorized, categories), Signature, i,
                 Block(categories[i], PlayersIn(categorized, categories[i].name)));
  }

  /** The layout of a text made of a head, pieces and a tail, on any strings. */
  lemma PiecesLayout(text: string, head: string, parts: seq<string>, tail: string, i: nat, piece: string)
    requires i < |parts| && piece == parts[i]
    requires text == head + Concat(parts) + tail
    ensures && StartsWith(text, head)
      && EndsWith(text, tail)
      && OccursAt(text, piece, |head| + |Concat(parts[..i])|)
  {
    ConcatLayout(parts, i);
    var body := Concat(parts);
    var at := |Concat(parts[..i])|;
    assert text[|head| + at..|head| + at + |parts[i]|] == body[at..at + |parts[i]|];
  }

  /** The line of the `k`-th player sits right after the lines of the players
      before it: players are numbered from one in list order. */
  lemma PlayerLinesLayout(players: seq<Player>, k: nat)
    requires k < |players|
    ensures OccursAt(Concat(Lines(players)), PlayerLine(k, players[k]), |Concat(Lines(players)[..k])|)
  {
    ConcatLayout(Lines(players), k);
  }

  /** A tier without players shows the empty marker in place of the list. */
  lemma EmptyTierBlock(category: Category)
    ensures Block(category, []) == BlockHead(category, 0) + EmptyTierLine + "\n"
    ensures BlockHead(category, 0) == CategoryEmoji(category.name) + " " + ToUpper(category.name)
              + " (0/" + IntToString(category.slots) + "):\n"
  {
    assert NatToString(0) == "0";
  }

  /** The ways of sharing, in the order they are tried. */
  datatype ShareMethod = WebShare | Telegram | Clipboard | Download | NoMethod

  datatype ShareResult = ShareResult(success: bool, via: ShareMethod)

  /** `universalShare`: the Web Share sheet only on a phone that supports it,
      then Telegram, the clipboard and a download, stopping at the first that
      works. The outcome of each channel is an input; `tried` lists the
      channels attempted, in order. */
  function UniversalShare(isMobile: bool, supportsWebShare: bool, webShareOk: bool,
                          telegramOk: bool, clipboardOk: bool, downloadOk: bool)
    : (out: (ShareResult, seq<ShareMethod>))
    ensures out.0.success <==> (isMobile && supportsWebShare && webShareOk) || telegramOk || clipboardOk || downloadOk
    ensures |out.1| > 0 && (out.0.success ==> out.0.via == out.1[|out.1| - 1])
    ensures WebShare in out.1 <==> isMobile && supportsWebShare
    ensures Download in out.1 <==> !(isMobile && supportsWebShare && webShareOk) && !telegramOk && !clipboardOk
  {
    var first := if isMobile && supportsWebShare then [WebShare] else [];
    if isMobile && supportsWebShare && webShareOk then (ShareResult(true, WebShare), first)
    else if telegramOk then (ShareResult(true, Telegram), first + [Telegram])
    else if clipboardOk then (ShareResult(true, Clipboard), first + [Telegram, Clipboard])
    else if downloadOk then (ShareResult(true, Download), first + [Telegram, Clipboard, Download])
    else (ShareResult(false, NoMethod), first + [Telegram, Clipboard, Download])
  }

  /** Whether a channel works, as the inputs say; the Web Share sheet counts
      only where it is offered. */
  predicate Works(m: ShareMethod, isMobile: bool, supportsWebShare: bool, webShareOk: bool,
                  telegramOk: bool, clipboardOk: bool, downloadOk: bool)
  {
    match m
    case WebShare => isMobile && supportsWebShare && webShareOk
    case Telegram => telegramOk
    case Clipboard => clipboardOk
    case Download => downloadOk
    case NoMethod => false
  }

  /** The channels are tried in the fixed order, every tried channel but the
      last failed, the reported channel is the last one tried and it worked,
      and failure is reported only when every channel failed. */
  lemma UniversalShareOrder(isMobile: bool, supportsWebShare: bool, webShareOk: bool,
                            telegramOk: bool, clipboardOk: bool, downloadOk: bool)
    ensures var (result, tried) := UniversalShare(isMobile, supportsWebShare, webShareOk, telegramOk, clipboardOk, downloadOk);
      && |tried| > 0
      && (forall k :: 0 <= k < |tried| - 1 ==>
            !Works(tried[k], isMobile, supportsWebShare, webShareOk, telegramOk, clipboardOk, downloadOk))
      && (result.success ==>
            && result.via == tried[|tried| - 1]
            && Works(result.via, isMobile, supportsWebShare, webShareOk, telegramOk, clipboardOk, downloadOk))
      && (!result.success <==> result.via == NoMethod)
      && (!result.success <==> forall m :: !Works(m, isMobile, supportsWebShare, webShareOk, telegramOk, clipboardOk, downloadOk))
      && (forall k, l :: 0 <= k < l < |tried| ==> Rank(tried[k]) < Rank(tried[l]))
  {
    var (result, tried) := UniversalShare(isMobile, supportsWebShare, webShareOk, telegramOk, clipboardOk, downloadOk);
    if result.success {
      assert Works(result.via, isMobile, supportsWebShare, webShareOk, telegramOk, clipboardOk, downloadOk);
    } else {
      forall m
        ensures !Works(m, isMobile, supportsWebShare, webShareOk, telegramOk, clipboardOk, downloadOk)
      {
        match m
        case WebShare =>
        case Telegram =>
        case Clipboard =>
        case Download =>
        case NoMethod =>
      }
    }
  }

  /** A channel's place in the fixed order. */
  function Rank(m: ShareMethod): nat {
    match m
    case WebShare => 0
    case Telegram => 1
    case Clipboard => 2
    case Download => 3
    case NoMethod => 4
  }
}
