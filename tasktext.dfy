/** The strings the task command builds from the paragraph text. */
module TaskText {

  const TitleLimit: nat := 50
  const Ellipsis: string := "..."

  /** The paragraph rewritten in the note: tagged in front and given a
      block anchor at the end. */
  function TaggedParagraph(text: string, blockId: string): string {
    "#ticktick " + text + " ^" + blockId
  }

  /** The task content: the paragraph and a link back to the block. */
  function TaskDescription(text: string, advancedUri: string): string {
    text + "\n\n[Open in Obsidian](" + advancedUri + ")"
  }

  /** The task title: the text itself when it has at most 50 characters,
      otherwise its first 50 characters and "...". */
  function TaskTitle(text: string): (title: string)
    ensures |title| <= TitleLimit + |Ellipsis|
    ensures |text| <= TitleLimit ==> title == text
    ensures |text| > TitleLimit ==> |title| == TitleLimit + |Ellipsis| && title[TitleLimit..] == Ellipsis
    ensures var n := if |text| < TitleLimit then |text| else TitleLimit; title[..n] == text[..n]
  {
    if |text| > TitleLimit then text[..TitleLimit] + Ellipsis else text
  }

  /** The rewritten paragraph keeps the text whole between the tag and the
      anchor, so it is recoverable from the rewrite. */
  lemma TaggedParagraphKeepsText(text: string, blockId: string)
    ensures var t := TaggedParagraph(text, blockId);
      |t| == |text| + |blockId| + 12
      && t[..10] == "#ticktick " && t[10..10 + |text|] == text
      && t[10 + |text|..] == " ^" + blockId
  {
  }

  /** The description keeps the text whole at its front, followed by a
      blank line and a Markdown link whose target is the URI. */
  lemma TaskDescriptionKeepsText(text: string, advancedUri: string)
    ensures var d := TaskDescription(text, advancedUri);
      |d| == |text| + |advancedUri| + 22
      && d[..|text|] == text && d[|text|..|text| + 21] == "\n\n[Open in Obsidian]("
      && d[|text| + 21..|d| - 1] == advancedUri && d[|d| - 1] == ')'
  {
  }
}
