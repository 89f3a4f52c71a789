/** Path-segment sanitizer (main.py:776-782): each of the nine characters
    Windows forbids in a file name becomes `_`, then surrounding whitespace is
    stripped. */
module Sanitizer {
  import opened Text

  /** The characters `\ / : * ? " < > |`, in the order the loop visits them. */
  const IllegalChars: string := "\\/:*?\"<>|"

  /** `s` with every character of `cs` replaced by `_`. */
  function Scrub(s: string, cs: string): (r: string)
    ensures |r| == |s|
    ensures forall k :: 0 <= k < |s| ==> r[k] == if s[k] in cs then '_' else s[k]
  {
    seq(|s|, k requires 0 <= k < |s| => if s[k] in cs then '_' else s[k])
  }

  /** Python `s.replace(c, "_")` for one character is `Scrub` with that character. */
  lemma {:induction false} ReplaceCharIsScrub(s: string, c: char)
    ensures ReplaceAll(s, [c], "_") == Scrub(s, [c])
    decreases |s|
  {
    if |s| >= 1 {
      ReplaceCharIsScrub(s[1..], c);
      assert Scrub(s, [c]) == Scrub([s[0]], [c]) + Scrub(s[1..], [c]);
      assert s[..1] == [s[0]];
    }
  }

  /** What `sanitize` returns for `filename`. */
  function Sanitized(filename: string): string {
    Strip(Scrub(filename, IllegalChars))
  }

  /** `sanitize`: the loop over the illegal characters, one `replace` each, then `strip`. */
  method Sanitize(filename: string) returns (r: string)
    ensures r == Sanitized(filename)
  {
    var current := filename;
    for i := 0 to |IllegalChars|
      invariant current == Scrub(filename, IllegalChars[..i])
    {
      ReplaceCharIsScrub(current, IllegalChars[i]);
      assert IllegalChars[..i + 1] == IllegalChars[..i] + [IllegalChars[i]];
      current := ReplaceAll(current, [IllegalChars[i]], "_");
    }
    assert IllegalChars[..|IllegalChars|] == IllegalChars;
    r := Strip(current);
  }

  /** None of the nine characters survives, and no whitespace is left at either end. */
  lemma SanitizedIsClean(filename: string)
    ensures forall k :: 0 <= k < |Sanitized(filename)| ==> Sanitized(filename)[k] !in IllegalChars
    ensures var r := Sanitized(filename);
      r != [] ==> !IsSpace(r[0]) && !IsSpace(r[|r| - 1])
  {
    var m := Scrub(filename, IllegalChars);
    StripIsTrimmedSlice(m);
    var a, b :| 0 <= a <= b <= |m| && Strip(m) == m[a..b];
    forall k | 0 <= k < |Strip(m)| ensures Strip(m)[k] !in IllegalChars {
      assert Strip(m)[k] == m[a + k];
    }
  }

  /** Sanitizing a sanitized segment changes nothing. */
  lemma SanitizeIdempotent(filename: string)
    ensures Sanitized(Sanitized(filename)) == Sanitized(filename)
  {
    var r := Sanitized(filename);
    SanitizedIsClean(filename);
    assert Scrub(r, IllegalChars) == r;
    StripIdempotent(Scrub(filename, IllegalChars));
  }

  lemma ScrubExample()
    ensures Scrub("  A/B:C*D ", IllegalChars) == "  A_B_C_D "
  {
    var s := "  A/B:C*D ";
    var m := Scrub(s, IllegalChars);
    forall k | 0 <= k < |s| ensures m[k] == "  A_B_C_D "[k] {
      assert s[k] in IllegalChars <==> k == 3 || k == 5 || k == 7;
    }
  }

  lemma TrimLeftExample()
    ensures TrimLeft("  A_B_C_D ") == "A_B_C_D "
  {
    var m := "  A_B_C_D ";
    assert m[1..] == " A_B_C_D ";
    assert m[1..][1..] == "A_B_C_D ";
  }

  lemma TrimRightExample()
    ensures TrimRight("A_B_C_D ") == "A_B_C_D"
  {
    assert "A_B_C_D "[..7] == "A_B_C_D";
  }

  /** `"  A/B:C*D "` sanitizes to `A_B_C_D`. */
  lemma SanitizeExample()
    ensures Sanitized("  A/B:C*D ") == "A_B_C_D"
  {
    ScrubExample();
    TrimLeftExample();
    TrimRightExample();
  }
}
