/** What the adjuster reads from a leg's name: its side ('PE' in the name), whether it
    was sold ('Sell' in the name), and its last whitespace-separated word. */
module LegNames {
  import opened Chain

  /** t occurs in s starting at position i. */
  predicate OccursAt(s: string, t: string, i: int)
  {
    0 <= i && i + |t| <= |s| && s[i..i + |t|] == t
  }

  /** Substring test, as Python's `t in s` on strings. */
  predicate Contains(s: string, t: string)
  {
    exists i :: 0 <= i <= |s| && OccursAt(s, t, i)
  }

  /** A put-side leg: the code tests `'PE' in leg`; every other leg is treated as a call. */
  predicate IsPut(name: string)
  {
    Contains(name, "PE")
  }

  /** A sold leg: the code tests `'Sell' in leg`; every other leg is treated as bought. */
  predicate IsSold(name: string)
  {
    Contains(name, "Sell")
  }

  function SideOf(name: string): Side
  {
    if IsPut(name) then Put else Call
  }

  /** The characters Python's `str.split()` with no argument splits on. */
  predicate IsSpace(c: char)
  {
    || '\t' <= c <= '\r'
    || '\U{1C}' <= c <= ' '
    || c == '\U{85}' || c == '\U{A0}' || c == '\U{1680}'
    || '\U{2000}' <= c <= '\U{200A}'
    || c == '\U{2028}' || c == '\U{2029}' || c == '\U{202F}' || c == '\U{205F}' || c == '\U{3000}'
  }

  predicate NoSpace(w: string)
  {
    forall k :: 0 <= k < |w| ==> !IsSpace(w[k])
  }

  predicate AllSpace(w: string)
  {
    forall k :: 0 <= k < |w| ==> IsSpace(w[k])
  }

  /** `s.split()` is non-empty exactly when s has a non-whitespace character. */
  predicate HasWord(s: string)
  {
    exists k :: 0 <= k < |s| && !IsSpace(s[k])
  }

  /** w is the word of s that ends at position e: it is followed only by whitespace
      and preceded by whitespace or the start of s. */
  predicate WordEndsAt(s: string, w: string, e: int)
  {
    && |w| > 0 && |w| <= e <= |s|
    && s[e - |w|..e] == w
    && NoSpace(w)
    && AllSpace(s[e..])
    && (e == |w| || IsSpace(s[e - |w| - 1]))
  }

  /** s without its trailing whitespace. */
  function TrimEnd(s: string): (t: string)
    ensures t <= s
    ensures AllSpace(s[|t|..])
    ensures |t| == 0 || !IsSpace(t[|t| - 1])
  {
    if |s| > 0 && IsSpace(s[|s| - 1]) then TrimEnd(s[..|s| - 1]) else s
  }

  /** The longest suffix of s free of whitespace. */
  function TrailingRun(s: string): (w: string)
    ensures |w| <= |s| && s[|s| - |w|..] == w
    ensures NoSpace(w)
    ensures |w| < |s| ==> IsSpace(s[|s| - |w| - 1])
  {
    if |s| == 0 || IsSpace(s[|s| - 1]) then [] else TrailingRun(s[..|s| - 1]) + [s[|s| - 1]]
  }

  /** `s.split()[-1]`: the last whitespace-separated word of s. */
  function LastWord(s: string): (w: string)
    requires HasWord(s)
    ensures exists e :: WordEndsAt(s, w, e)
  {
    var t := TrimEnd(s);
    var w := TrailingRun(t);
    assert |t| > 0 by {
      var k :| 0 <= k < |s| && !IsSpace(s[k]);
    }
    assert |w| > 0;
    assert WordEndsAt(s, w, |t|) by {
      assert s[|t| - |w|..|t|] == t[|t| - |w|..];
    }
    w
  }

  /** The four names the adjuster writes are read back as the side and direction they name. */
  lemma StandardNames()
    ensures IsPut("Sell PE") && IsSold("Sell PE")
    ensures IsPut("Buy PE") && !IsSold("Buy PE")
    ensures !IsPut("Sell CE") && IsSold("Sell CE")
    ensures !IsPut("Buy CE") && !IsSold("Buy CE")
  {
    assert OccursAt("Sell PE", "PE", 5) && OccursAt("Sell PE", "Sell", 0);
    assert OccursAt("Buy PE", "PE", 4);
    assert OccursAt("Sell CE", "Sell", 0);
    NotAt("Buy PE", "Sell");
    NotAt("Buy CE", "Sell");
    NotAt("Sell CE", "PE");
    NotAt("Buy CE", "PE");
  }

  /** t does not occur in s when no position of s holds t's first character. */
  lemma NotAt(s: string, t: string)
    requires |t| > 0
    requires forall i :: 0 <= i < |s| ==> s[i] != t[0]
    ensures !Contains(s, t)
  {
    forall i | 0 <= i <= |s| && i + |t| <= |s|
      ensures !OccursAt(s, t, i)
    {
      assert s[i..i + |t|][0] == s[i];
    }
  }

  /** The sold names' last words are the side codes the hedge names are built from. */
  lemma StandardLastWords()
    ensures HasWord("Sell PE") && LastWord("Sell PE") == "PE"
    ensures HasWord("Sell CE") && LastWord("Sell CE") == "CE"
  {
    assert !IsSpace("Sell PE"[0]) && !IsSpace("Sell CE"[0]);
    LastWordOfSideCode("Sell ", 'P');
    LastWordOfSideCode("Sell ", 'C');
    assert "Sell " + ['P', 'E'] == "Sell PE";
    assert "Sell " + ['C', 'E'] == "Sell CE";
  }

  /** A name ending in a space and a two-letter side code has that code as its last word. */
  lemma LastWordOfSideCode(p: string, c: char)
    requires |p| > 0 && p[|p| - 1] == ' '
    requires !IsSpace(c)
    ensures HasWord(p + [c, 'E']) && LastWord(p + [c, 'E']) == [c, 'E']
  {
    var s := p + [c, 'E'];
    assert !IsSpace(s[|s| - 1]);
    assert TrimEnd(s) == s;
    assert s[..|s| - 1] == p + [c];
    assert (p + [c])[..|p|] == p;
    assert TrailingRun(p) == [];
    assert TrailingRun(p + [c]) == [c];
  }

  /** A sold leg's name always has a last word, so the replacement hedge can be named. */
  lemma SoldHasWord(s: string)
    requires IsSold(s)
    ensures HasWord(s)
  {
    var i :| 0 <= i <= |s| && OccursAt(s, "Sell", i);
    assert s[i..i + 4][0] == s[i];
    assert !IsSpace(s[i]);
  }
}
