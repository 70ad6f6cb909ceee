/**
 * The message the final card shows for the predictor's output line: "1" and "0" (ignoring
 * surrounding blanks) become the high- and low-risk messages, anything else is shown as it is.
 */
module ResultMessage {

  datatype Message = HighRisk | LowRisk | Verbatim(text: string)

  /** The characters Java's `String.trim()` strips: every code point up to and including space. */
  predicate Blank(c: char) {
    c <= ' '
  }

  predicate AllBlank(s: string) {
    forall k | 0 <= k < |s| :: Blank(s[k])
  }

  /** The index of the first non-blank character of `s` at or after `i`, or `|s|` if there is none. */
  function SkipLeading(s: string, i: nat): (r: nat)
    requires i <= |s|
    ensures i <= r <= |s|
    ensures forall k | i <= k < r :: Blank(s[k])
    ensures r == |s| || !Blank(s[r])
    decreases |s| - i
  {
    if i < |s| && Blank(s[i]) then SkipLeading(s, i + 1) else i
  }

  /** One past the last non-blank character of `s` in `[lo, j)`, or `lo` if there is none. */
  function SkipTrailing(s: string, lo: nat, j: nat): (r: nat)
    requires lo <= j <= |s|
    ensures lo <= r <= j
    ensures forall k | r <= k < j :: Blank(s[k])
    ensures r == lo || !Blank(s[r - 1])
    decreases j - lo
  {
    if lo < j && Blank(s[j - 1]) then SkipTrailing(s, lo, j - 1) else j
  }

  /** Java's `String.trim()`: the middle part of `s` left once blanks are cut from both ends. */
  function Trim(s: string): (r: string)
    ensures r == [] || (!Blank(r[0]) && !Blank(r[|r| - 1]))
  {
    var a := SkipLeading(s, 0);
    s[a..SkipTrailing(s, a, |s|)]
  }

  /** `SkipLeading` stops exactly at the first non-blank position. */
  lemma SkipLeadingStopsAt(s: string, i: nat, a: nat)
    requires i <= a <= |s|
    requires forall k | i <= k < a :: Blank(s[k])
    requires a == |s| || !Blank(s[a])
    ensures SkipLeading(s, i) == a
  {
  }

  /** `SkipTrailing` stops exactly after the last non-blank position. */
  lemma SkipTrailingStopsAt(s: string, lo: nat, j: nat, b: nat)
    requires lo <= b <= j <= |s|
    requires forall k | b <= k < j :: Blank(s[k])
    requires b == lo || !Blank(s[b - 1])
    ensures SkipTrailing(s, lo, j) == b
  {
  }

  /** What `Trim` keeps is its input with nothing but blanks cut from either end. */
  lemma TrimIsPadded(s: string)
    ensures exists pre, post :: s == pre + Trim(s) + post && AllBlank(pre) && AllBlank(post)
  {
    var a := SkipLeading(s, 0);
    var b := SkipTrailing(s, a, |s|);
    var pre, post := s[..a], s[b..];
    assert s == pre + Trim(s) + post;
    assert AllBlank(pre) && AllBlank(post);
  }

  /** Trimming a blank-padded text whose ends are not blank gives that text back. */
  lemma TrimPadded(pre: string, core: string, post: string)
    requires AllBlank(pre) && AllBlank(post)
    requires core == [] || (!Blank(core[0]) && !Blank(core[|core| - 1]))
    ensures Trim(pre + core + post) == core
  {
    var s := pre + core + post;
    var a := |pre|;
    var b := |pre| + |core|;
    if core == [] {
      assert forall k | 0 <= k < |s| :: Blank(s[k]) by {
        forall k | 0 <= k < |s| ensures Blank(s[k]) {
          if k < |pre| { assert s[k] == pre[k]; } else { assert s[k] == post[k - |pre|]; }
        }
      }
      SkipLeadingStopsAt(s, 0, |s|);
    } else {
      assert forall k | 0 <= k < a :: Blank(s[k]) by {
        forall k | 0 <= k < a ensures Blank(s[k]) { assert s[k] == pre[k]; }
      }
      assert forall k | b <= k < |s| :: Blank(s[k]) by {
        forall k | b <= k < |s| ensures Blank(s[k]) { assert s[k] == post[k - b]; }
      }
      assert s[a] == core[0] && s[b - 1] == core[|core| - 1];
      SkipLeadingStopsAt(s, 0, a);
      SkipTrailingStopsAt(s, a, |s|, b);
      assert s[a..b] == core;
    }
  }

  /** The message for the predictor's output line. */
  function MessageFor(prediction: string): (r: Message)
    ensures r == HighRisk <==> Trim(prediction) == "1"
    ensures r == LowRisk <==> Trim(prediction) == "0"
    ensures r.Verbatim? ==> r.text == prediction
  {
    if Trim(prediction) == "1" then HighRisk
    else if Trim(prediction) == "0" then LowRisk
    else Verbatim(prediction)
  }

  /** "1" and "0" surrounded by any blanks (the newline a process prints, say) still give the
      high- and low-risk messages. */
  lemma PaddedLabels(pre: string, post: string)
    requires AllBlank(pre) && AllBlank(post)
    ensures MessageFor(pre + "1" + post) == HighRisk
    ensures MessageFor(pre + "0" + post) == LowRisk
  {
    TrimPadded(pre, "1", post);
    TrimPadded(pre, "0", post);
  }

  /** Conversely, the high-risk message is shown only for a blank-padded "1". */
  lemma HighRiskOnlyForOne(prediction: string)
    requires MessageFor(prediction) == HighRisk
    ensures exists pre, post :: prediction == pre + "1" + post && AllBlank(pre) && AllBlank(post)
  {
    TrimIsPadded(prediction);
  }

  /** Likewise, the low-risk message is shown only for a blank-padded "0". */
  lemma LowRiskOnlyForZero(prediction: string)
    requires MessageFor(prediction) == LowRisk
    ensures exists pre, post :: prediction == pre + "0" + post && AllBlank(pre) && AllBlank(post)
  {
    TrimIsPadded(prediction);
  }
}
