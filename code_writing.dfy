/**
 * Code extraction for the code-writing chain: the model's markdown answer is
 * split at the opening ```python fence into exactly two parts (a tuple unpack),
 * and the code is the second part up to the next ``` fence.
 */
module CodeWriting {
  import opened Prelude

  const OpenFence: string := "```python"
  const Fence: string := "```"

  /** The ValueError of the two-name unpack `_, after = text.split(...)`. */
  datatype UnpackError = NotEnoughValues | TooManyValues

  /** `_sanitize_output`: too few values to unpack exactly when the opening fence is missing. */
  function SanitizeOutput(text: string): (r: Result<string, UnpackError>)
    ensures r == Err(NotEnoughValues) <==> !Occurs(text, OpenFence)
  {
    SplitSingle(text, OpenFence);
    var pieces := Split(text, OpenFence);
    if |pieces| < 2 then Err(NotEnoughValues)
    else if |pieces| > 2 then Err(TooManyValues)
    else Ok(Split(pieces[1], Fence)[0])
  }

  /** `pat` occurs at exactly one position of `s`. */
  ghost predicate OccursOnce(s: string, pat: string)
  {
    Occurs(s, pat) && forall i, j :: OccursAt(s, pat, i) && OccursAt(s, pat, j) ==> i == j
  }

  /** A split has one piece exactly when the separator does not occur. */
  lemma SplitSingle(s: string, sep: string)
    requires |sep| > 0
    ensures |Split(s, sep)| == 1 <==> !Occurs(s, sep)
  {
    var f := Find(s, sep);
    if f.Some? {
      var i := f.value;
      assert OccursAt(s, sep, i);
      assert Split(s, sep) == [s[..i]] + Split(s[i + |sep|..], sep);
    } else {
      assert Split(s, sep) == [s];
    }
  }

  /** Two occurrences of the opening fence cannot overlap. */
  lemma OpenFenceNoOverlap(s: string, i: int, j: int)
    requires OccursAt(s, OpenFence, i) && OccursAt(s, OpenFence, j) && i < j
    ensures j >= i + |OpenFence|
  {
    assert s[j] == OpenFence[0] == '`';
    assert s[i + 3] == OpenFence[3] == 'p';
    assert forall d :: 3 <= d < |OpenFence| ==> OpenFence[d] != '`';
    assert OpenFence[1] == OpenFence[2] == '`';
    assert forall t :: i <= t < i + |OpenFence| ==> s[t] == OpenFence[t - i];
    assert forall t :: j <= t < j + |OpenFence| ==> s[t] == OpenFence[t - j];
  }

  /** An occurrence in the text after index k, moved into the suffix `s[k..]`. */
  lemma OccursInSuffix(s: string, pat: string, k: nat, j: int)
    requires k <= |s| && OccursAt(s, pat, j) && k <= j
    ensures OccursAt(s[k..], pat, j - k)
  {
    assert s[k..][j - k..j - k + |pat|] == s[j..j + |pat|];
  }

  /** An occurrence in the suffix `s[k..]`, moved back into the text. */
  lemma OccursFromSuffix(s: string, pat: string, k: nat, m: int)
    requires k <= |s| && OccursAt(s[k..], pat, m)
    ensures OccursAt(s, pat, m + k)
  {
    assert s[k..][m..m + |pat|] == s[m + k..m + k + |pat|];
  }

  /**
   * The unpack succeeds exactly when the opening fence occurs once. The text is
   * then `before + "```python" + after` with `after` free of the opening fence.
   */
  lemma SanitizeOkIffOneOpenFence(text: string)
    ensures SanitizeOutput(text).Ok? <==> OccursOnce(text, OpenFence)
    ensures !Occurs(text, OpenFence) ==> SanitizeOutput(text) == Err(NotEnoughValues)
  {
    SplitSingle(text, OpenFence);
    match Find(text, OpenFence)
    case None =>
    case Some(i) =>
      var k := i + |OpenFence|;
      var rest := text[k..];
      assert Split(text, OpenFence) == [text[..i]] + Split(rest, OpenFence);
      SplitSingle(rest, OpenFence);
      if OccursOnce(text, OpenFence) {
        forall m | OccursAt(rest, OpenFence, m)
          ensures false
        {
          OccursFromSuffix(text, OpenFence, k, m);
        }
      }
      if !Occurs(rest, OpenFence) {
        forall a, b | OccursAt(text, OpenFence, a) && OccursAt(text, OpenFence, b)
          ensures a == b
        {
          OnlyFirst(text, i, a);
          OnlyFirst(text, i, b);
        }
      }
  }

  /** With the first opening fence at i and none after it, i is the only occurrence. */
  lemma OnlyFirst(text: string, i: nat, a: int)
    requires OccursAt(text, OpenFence, i) && OccursAt(text, OpenFence, a)
    requires forall j :: 0 <= j < i ==> !OccursAt(text, OpenFence, j)
    requires !Occurs(text[i + |OpenFence|..], OpenFence)
    ensures a == i
  {
    if a > i {
      OpenFenceNoOverlap(text, i, a);
      OccursInSuffix(text, OpenFence, i + |OpenFence|, a);
    }
  }

  /**
   * On success the code is the text right after the opening fence, up to the
   * first ``` fence after it or the end of the text, and contains no ``` itself.
   */
  lemma SanitizeOutputExtracts(text: string)
    requires SanitizeOutput(text).Ok?
    ensures var code := SanitizeOutput(text).value;
      exists i :: OccursAt(text, OpenFence, i)
        && var start := i + |OpenFence|;
           start + |code| <= |text|
           && text[start..start + |code|] == code
           && (start + |code| == |text| || OccursAt(text, Fence, start + |code|))
           && forall p :: start <= p < start + |code| ==> !OccursAt(text, Fence, p)
    ensures !Occurs(SanitizeOutput(text).value, Fence)
  {
    var i := Find(text, OpenFence).value;
    var start := i + |OpenFence|;
    var after := text[start..];
    assert Split(text, OpenFence)[1] == after;
    var code := SanitizeOutput(text).value;
    SplitPiecesAvoidSeparator(after, Fence);
    assert code in Split(after, Fence);
    match Find(after, Fence)
    case None =>
      assert code == after;
      assert text[start..start + |code|] == code;
      NoFenceBefore(text, start, |code|);
    case Some(e) =>
      assert code == after[..e];
      assert text[start..start + |code|] == code;
      OccursFromSuffix(text, Fence, start, e);
      NoFenceBefore(text, start, e);
  }

  /** The first ``` of `text[start..]`, if any, is at or after `start + e`. */
  lemma NoFenceBefore(text: string, start: nat, e: nat)
    requires start + e <= |text|
    requires forall j :: 0 <= j < e ==> !OccursAt(text[start..], Fence, j)
    ensures forall p :: start <= p < start + e ==> !OccursAt(text, Fence, p)
  {
    forall p | start <= p < start + e
      ensures OccursAt(text, Fence, p) == OccursAt(text[start..], Fence, p - start)
    {
      if p + |Fence| <= |text| {
        assert text[start..][p - start..p - start + |Fence|] == text[p..p + |Fence|];
      }
    }
  }

  /** Without a closing fence the code is the whole remainder after the opening fence. */
  lemma NoClosingFenceTakesRemainder(text: string, i: nat)
    requires OccursOnce(text, OpenFence) && OccursAt(text, OpenFence, i)
    requires !Occurs(text[i + |OpenFence|..], Fence)
    ensures SanitizeOutput(text) == Ok(text[i + |OpenFence|..])
  {
    SanitizeOkIffOneOpenFence(text);
    assert Find(text, OpenFence) == Some(i);
    assert Split(text, OpenFence)[1] == text[i + |OpenFence|..];
  }
}
