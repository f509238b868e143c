/** The message preview column of the chat admin (teams/admin.py). */
module Admin {
  import opened Strings

  const PreviewLength: nat := 50

  /** `content_preview`: the content itself when it is at most 50 characters
      long, else its first 50 characters followed by `...`. */
  function ContentPreview(content: string): (r: string)
    ensures |r| <= PreviewLength + 3
    ensures var n := if |content| <= PreviewLength then |content| else PreviewLength;
      |r| >= n && r[..n] == content[..n]
    ensures |content| <= PreviewLength ==> r == content
    ensures |content| > PreviewLength ==>
      (r == content <==> |content| == PreviewLength + 3 && content[PreviewLength..] == "...")
    ensures |content| > PreviewLength ==> |r| == PreviewLength + 3 && r[PreviewLength..] == "..."
  {
    if |content| > PreviewLength then Take(content, PreviewLength) + "..." else content
  }

  /** Content of exactly 50 characters is shown whole; one more character
      gives a 53-character preview. */
  lemma PreviewBoundary(content: string, c: char)
    requires |content| == PreviewLength
    ensures ContentPreview(content) == content
    ensures ContentPreview(content + [c]) == content + "..."
  {
    assert (content + [c])[..PreviewLength] == content;
  }
}
