/**
 * The `renderAdjlist` template filter: an adjacency list is shown in HTML
 * by replacing every newline with a `<br/>` tag.
 */
module DatabaseFilters {
  import PyText

  const LineBreak: string := "<br/>"

  /** `adjlist.replace('\n', '<br/>')`. */
  function RenderAdjlist(adjlist: string): string
  {
    PyText.Replace(adjlist, "\n", LineBreak)
  }

  /** The rendered list holds no newline. */
  lemma RenderHasNoNewline(s: string)
    ensures '\n' !in RenderAdjlist(s)
  {
    PyText.ReplaceCharFree(s, '\n', LineBreak, '\n');
  }

  /** Every newline grows the text by four characters: `<br/>` is five long. */
  lemma {:induction false} RenderLength(s: string)
    ensures |RenderAdjlist(s)| == |s| + 4 * multiset(s)['\n']
    decreases |s|
  {
    if |s| > 0 {
      PyText.ReplaceCharStep(s, '\n', LineBreak);
      RenderLength(s[1..]);
      assert s == [s[0]] + s[1..];
      assert multiset(s) == multiset([s[0]]) + multiset(s[1..]);
    }
  }

  /** Text without a newline is rendered unchanged. */
  lemma {:induction false} RenderIdentity(s: string)
    requires '\n' !in s
    ensures RenderAdjlist(s) == s
    decreases |s|
  {
    if |s| > 0 {
      PyText.ReplaceCharStep(s, '\n', LineBreak);
      assert s[0] != '\n';
      assert '\n' !in s[1..] by {
        forall i | 0 <= i < |s| - 1
          ensures s[1..][i] != '\n'
        {
          assert s[1..][i] == s[i + 1];
        }
      }
      RenderIdentity(s[1..]);
      assert s == [s[0]] + s[1..];
    }
  }

  /** Rendering distributes over concatenation, because the pattern is a single character. */
  lemma RenderConcat(a: string, b: string)
    ensures RenderAdjlist(a + b) == RenderAdjlist(a) + RenderAdjlist(b)
  {
    PyText.ReplaceCharConcat(a, b, '\n', LineBreak);
  }
}
