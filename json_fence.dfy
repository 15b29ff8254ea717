/** `clean_json_response` (ai_utils.py:32-40): turns a language-model reply into the
    text handed to `json.loads` by stripping it, deleting Markdown code fences and
    keeping the span from the first `{` to the last `}`. */
module JsonFence {
  import opened PyStr

  const Fence: string := "```"

  /** The number of backticks `s` starts with. */
  function LeadingTicks(s: string): (n: nat)
    ensures n <= |s|
    ensures forall i :: 0 <= i < n ==> s[i] == '`'
    ensures n < |s| ==> s[n] != '`'
  {
    if s != [] && s[0] == '`' then 1 + LeadingTicks(s[1..]) else 0
  }

  /** Removing every fence leaves fewer than three leading backticks, and leaves
      a leading run shorter than a fence as it is. */
  lemma {:induction false} RemoveFencesLeadingTicks(s: string)
    ensures LeadingTicks(ReplaceAll(s, Fence, "")) < 3
    ensures LeadingTicks(s) < 3 ==> LeadingTicks(ReplaceAll(s, Fence, "")) == LeadingTicks(s)
    decreases |s|
  {
    if |s| < 3 {
      assert ReplaceAll(s, Fence, "") == s;
    } else if s[..3] == Fence {
      assert LeadingTicks(s) >= 3 by {
        assert s[1..][1..][0] == '`' && s[1..][0] == '`';
      }
      assert ReplaceAll(s, Fence, "") == ReplaceAll(s[3..], Fence, "") by {
        assert "" + ReplaceAll(s[3..], Fence, "") == ReplaceAll(s[3..], Fence, "");
      }
      RemoveFencesLeadingTicks(s[3..]);
    } else {
      var rest := ReplaceAll(s[1..], Fence, "");
      var r := [s[0]] + rest;
      assert ReplaceAll(s, Fence, "") == r;
      assert r[1..] == rest;
      if s[0] == '`' {
        var k := LeadingTicks(s[1..]);
        assert LeadingTicks(s) == 1 + k;
        assert k <= 1;
        RemoveFencesLeadingTicks(s[1..]);
        assert LeadingTicks(r) == 1 + LeadingTicks(rest);
      } else {
        assert LeadingTicks(r) == 0;
      }
    }
  }

  /** `s.replace("```", "")` contains no fence, whatever `s` is: the deletions
      cannot bring two backtick runs together. */
  lemma {:induction false} RemoveFencesComplete(s: string)
    ensures !Contains(ReplaceAll(s, Fence, ""), Fence)
    decreases |s|
  {
    if |s| < 3 {
      assert ReplaceAll(s, Fence, "") == s;
      NoFenceInShort(s);
    } else if s[..3] == Fence {
      assert ReplaceAll(s, Fence, "") == ReplaceAll(s[3..], Fence, "") by {
        assert "" + ReplaceAll(s[3..], Fence, "") == ReplaceAll(s[3..], Fence, "");
      }
      RemoveFencesComplete(s[3..]);
    } else {
      var rest := ReplaceAll(s[1..], Fence, "");
      var r := [s[0]] + rest;
      assert ReplaceAll(s, Fence, "") == r;
      assert r[1..] == rest;
      RemoveFencesComplete(s[1..]);
      RemoveFencesLeadingTicks(s[1..]);
      assert !StartsWith(r, Fence);
    }
  }

  lemma NoFenceInShort(s: string)
    requires |s| < 3
    ensures !Contains(s, Fence)
    decreases |s|
  {
    if s != [] { NoFenceInShort(s[1..]); }
  }

  /** The text after stripping and fence removal (ai_utils.py:33-35); a reply
      without a fence is only stripped. */
  function Unfenced(content: string): (d: string)
    ensures !Contains(d, Fence)
    ensures !Contains(Strip(content), Fence) ==> d == Strip(content)
  {
    var c := Strip(content);
    if Contains(c, Fence) then
      RemoveFencesComplete(ReplaceAll(c, "```json", ""));
      ReplaceAll(ReplaceAll(c, "```json", ""), Fence, "")
    else c
  }

  /** `r` occurs in `d` as a contiguous piece. */
  ghost predicate IsSubstring(r: string, d: string) {
    exists lo: nat, hi: nat :: lo <= hi <= |d| && d[lo..hi] == r
  }

  /** The properties of `d[a:b + 1]` for the first `{` at `a` and the last `}` at `b`. */
  lemma SpanFacts(d: string, a: nat, b: nat)
    requires a < |d| && b < |d| && d[a] == '{' && d[b] == '}'
    ensures !Contains(d, Fence) ==> !Contains(Slice(d, a, b + 1), Fence)
    ensures IsSubstring(Slice(d, a, b + 1), d)
    ensures a < b ==> var r := Slice(d, a, b + 1); r == d[a..b + 1] && r[0] == '{' && r[|r| - 1] == '}'
    ensures b < a ==> Slice(d, a, b + 1) == []
  {
    if b + 1 <= a {
      assert d[0..0] == Slice(d, a, b + 1);
      NoFenceInShort([]);
    } else if !Contains(d, Fence) {
      NotContainsSlice(d, Fence, a, b + 1);
    }
  }

  /** `r` is what the brace-span step (ai_utils.py:36-39) keeps of `d`: a piece of
      `d`; all of `d` when it lacks `{` or `}`; the span from the first `{` to the
      last `}` when that `{` comes first; nothing when the last `}` comes first. */
  ghost predicate IsBraceSpan(d: string, r: string) {
    && IsSubstring(r, d)
    && ('{' !in d || '}' !in d ==> r == d)
    && (var a := FindChar(d, '{'); var b := RFindChar(d, '}');
        0 <= a < b ==> r == d[a..b + 1] && r[0] == '{' && r[|r| - 1] == '}')
    && (var a := FindChar(d, '{'); var b := RFindChar(d, '}');
        0 <= b < a ==> r == [])
  }

  /** The brace-span step of `clean_json_response` (ai_utils.py:36-39) on the
      de-fenced text `d`. */
  function BraceSpanOf(d: string): (r: string)
    ensures !Contains(d, Fence) ==> !Contains(r, Fence)
    ensures IsBraceSpan(d, r)
  {
    var startIdx := FindChar(d, '{');
    var endIdx := RFindChar(d, '}');
    if startIdx != -1 && endIdx != -1 then
      SpanFacts(d, startIdx, endIdx);
      Slice(d, startIdx, endIdx + 1)
    else
      assert d[0..|d|] == d;
      d
  }

  /** `clean_json_response(content)`: no fence survives, and the result is the
      brace span of the de-fenced text. */
  function CleanJsonResponse(content: string): (r: string)
    ensures !Contains(r, Fence)
    ensures IsBraceSpan(Unfenced(content), r)
  {
    BraceSpanOf(Unfenced(content))
  }
}
