/**
 * The file renaming in `applyRequest` (index.js): each archive member name is
 * turned into the name of the caption file to fetch (".txt" -> ".vtt") and the
 * name of the file to write (".txt" -> ".srt") by JavaScript's
 * `String.prototype.replace` with a string pattern, which replaces only the
 * FIRST occurrence of the pattern and leaves the string alone when there is none.
 */
module FileNames {
  import opened Wrappers

  /** `pat` occurs in `s` starting at position `k`. */
  predicate OccursAt(s: string, pat: string, k: int)
  {
    0 <= k && k + |pat| <= |s| && s[k..k + |pat|] == pat
  }

  predicate Contains(s: string, pat: string)
  {
    exists k | 0 <= k <= |s| - |pat| :: OccursAt(s, pat, k)
  }

  /** The first position at which `pat` occurs in `s` (`String.prototype.indexOf`),
      or None. An empty pattern occurs at 0. */
  function IndexOf(s: string, pat: string): (r: Option<nat>)
    ensures r.Some? ==> OccursAt(s, pat, r.value)
    ensures r.Some? ==> forall k :: 0 <= k < r.value ==> !OccursAt(s, pat, k)
    ensures r.None? ==> forall k :: !OccursAt(s, pat, k)
  {
    if |s| < |pat| then None
    else if s[..|pat|] == pat then Some(0)
    else
      match IndexOf(s[1..], pat)
      case Some(k) =>
        ShiftOccurrence(s, pat, k);
        assert forall j :: 1 <= j <= k ==> (OccursAt(s, pat, j) <==> OccursAt(s[1..], pat, j - 1));
        Some(k + 1)
      case None =>
        assert forall j :: 1 <= j ==> (OccursAt(s, pat, j) <==> OccursAt(s[1..], pat, j - 1));
        None
  }

  /** Dropping the first character moves every later occurrence one place left. */
  lemma ShiftOccurrence(s: string, pat: string, k: int)
    requires |s| > 0 && k >= 0
    ensures OccursAt(s, pat, k + 1) <==> OccursAt(s[1..], pat, k)
  {
  }

  /** `s.replace(pat, rep)` with a string pattern and a replacement without `$`
      (JavaScript expands `$&`, `$$`, `` $` `` and `$'` in the replacement; the two
      extensions used for renaming contain no `$`). */
  function ReplaceFirst(s: string, pat: string, rep: string): (r: string)
    ensures |r| == if Contains(s, pat) then |s| - |pat| + |rep| else |s|
  {
    match IndexOf(s, pat)
    case None => s
    case Some(k) => s[..k] + rep + s[k + |pat|..]
  }

  /** IndexOf finds something exactly when the pattern occurs. */
  lemma IndexOfContains(s: string, pat: string)
    ensures IndexOf(s, pat).Some? <==> Contains(s, pat)
  {
  }

  /** With no occurrence of the pattern the string is unchanged. */
  lemma ReplaceFirstAbsent(s: string, pat: string, rep: string)
    requires !Contains(s, pat)
    ensures ReplaceFirst(s, pat, rep) == s
  {
    IndexOfContains(s, pat);
  }

  /** With a first occurrence at `k`, exactly that occurrence is replaced. */
  lemma ReplaceFirstAt(s: string, pat: string, rep: string, k: nat)
    requires OccursAt(s, pat, k)
    requires forall j :: 0 <= j < k ==> !OccursAt(s, pat, j)
    ensures ReplaceFirst(s, pat, rep) == s[..k] + rep + s[k + |pat|..]
  {
    var r := IndexOf(s, pat);
    assert r.Some?;
    assert !(r.value < k) && !(k < r.value);
  }

  /** Only the first occurrence is replaced: when the replacement has the
      pattern's length, every later occurrence that does not overlap the first
      survives in place. */
  lemma ReplaceFirstKeepsLater(s: string, pat: string, rep: string, k: nat, j: nat)
    requires |rep| == |pat|
    requires OccursAt(s, pat, k)
    requires forall i :: 0 <= i < k ==> !OccursAt(s, pat, i)
    requires k + |pat| <= j
    requires OccursAt(s, pat, j)
    ensures OccursAt(ReplaceFirst(s, pat, rep), pat, j)
  {
    ReplaceFirstAt(s, pat, rep, k);
    var r := ReplaceFirst(s, pat, rep);
    assert r[j..j + |pat|] == s[j..j + |pat|];
  }

  /** A same-length, different replacement changes the string exactly when the
      pattern occurs in it. */
  lemma ReplaceFirstChangesIff(s: string, pat: string, rep: string)
    requires |rep| == |pat| && rep != pat
    ensures ReplaceFirst(s, pat, rep) != s <==> Contains(s, pat)
  {
    IndexOfContains(s, pat);
    match IndexOf(s, pat)
    case None =>
    case Some(k) =>
      var r := ReplaceFirst(s, pat, rep);
      assert r[k..k + |pat|] == rep;
      assert s[k..k + |pat|] == pat;
  }

  /** A member name with its first ".txt" rewritten to another four-character extension. */
  function Renamed(file: string, ext: string): (r: string)
    requires |ext| == |".txt"|
    ensures |r| == |file|
  {
    ReplaceFirst(file, ".txt", ext)
  }

  /** The name of the caption file fetched for an archive member (index.js:21):
      the member name itself exactly when it has no ".txt". */
  function VttName(file: string): (r: string)
    ensures |r| == |file|
    ensures r == file <==> !Contains(file, ".txt")
  {
    ReplaceFirstChangesIff(file, ".txt", ".vtt");
    Renamed(file, ".vtt")
  }

  /** The name the translated captions are written under (index.js:26):
      the member name itself exactly when it has no ".txt". */
  function SrtName(file: string): (r: string)
    ensures |r| == |file|
    ensures r == file <==> !Contains(file, ".txt")
  {
    ReplaceFirstChangesIff(file, ".txt", ".srt");
    Renamed(file, ".srt")
  }

  /** A member name without ".txt" is fetched and written under its own name;
      one with ".txt" gets two different names, both changed. */
  lemma RenamesOfMember(file: string)
    ensures !Contains(file, ".txt") ==> VttName(file) == file && SrtName(file) == file
    ensures Contains(file, ".txt") ==> VttName(file) != file && SrtName(file) != file && VttName(file) != SrtName(file)
  {
    ReplaceFirstChangesIff(file, ".txt", ".vtt");
    ReplaceFirstChangesIff(file, ".txt", ".srt");
    IndexOfContains(file, ".txt");
    match IndexOf(file, ".txt")
    case None =>
    case Some(k) =>
      assert VttName(file)[k + 1] == 'v';
      assert SrtName(file)[k + 1] == 's';
  }

  /** A name with ".txt" twice: only the first is rewritten. */
  lemma SecondExtensionKept()
    ensures VttName("a.txt.b.txt") == "a.vtt.b.txt"
  {
    var name := "a.txt.b.txt";
    assert name[..4][0] != ".txt"[0];
    ReplaceFirstAt(name, ".txt", ".vtt", 1);
  }
}
