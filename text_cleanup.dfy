/**
  * Cleanup of the recognition engine's full-text output, as done by
  * `perform_ocr`: every form-feed character (the page break the engine
  * appends) is removed, then leading and trailing whitespace is stripped
  * with Python's `str.strip()`.
  */
module TextCleanup {
  import opened Selection

  /** The page-break character U+000C that the engine emits after each page. */
  const FormFeed: char := '\U{000C}'

  /**
    * Python's `str.isspace()` for a single character: the ASCII controls
    * TAB, LF, VT, FF and CR, the separators U+001C..U+001F, SPACE, NEL,
    * NO-BREAK SPACE and the Unicode space separators.  `str.strip()` with no
    * argument removes exactly these characters.
    */
  predicate IsSpace(c: char) {
    var k := c as int;
    (0x09 <= k <= 0x0D) || (0x1C <= k <= 0x20) || k == 0x85 || k == 0xA0 ||
    k == 0x1680 || (0x2000 <= k <= 0x200A) || k == 0x2028 || k == 0x2029 ||
    k == 0x202F || k == 0x205F || k == 0x3000
  }

  /** Every character of `s` is whitespace (the empty string included). */
  ghost predicate AllSpace(s: string) {
    forall k :: 0 <= k < |s| ==> IsSpace(s[k])
  }

  /** `s` neither starts nor ends with whitespace. */
  ghost predicate Trimmed(s: string) {
    s == [] || (!IsSpace(s[0]) && !IsSpace(s[|s| - 1]))
  }

  /**
    * Python's `s.strip()`: drops whitespace from both ends until neither end
    * is whitespace.  The result has no whitespace at either end, takes no
    * character that `s` lacks, and is empty exactly when `s` is all
    * whitespace.
    */
  function Strip(s: string): (r: string)
    ensures Trimmed(r)
    ensures |r| <= |s|
    ensures forall c :: c in r ==> c in s
    ensures r == [] <==> AllSpace(s)
  {
    if s != [] && IsSpace(s[0]) then Strip(s[1..])
    else if s != [] && IsSpace(s[|s| - 1]) then Strip(s[..|s| - 1])
    else s
  }

  /** Python's `s.replace(c, "")` for a one-character `c`. */
  function RemoveAll(s: string, c: char): (r: string)
    ensures c !in r
    ensures multiset(r) == multiset(s)[c := 0]
    ensures c !in s ==> r == s
  {
    if s == [] then []
    else
      var init, last := s[..|s| - 1], s[|s| - 1];
      assert s == init + [last];
      RemoveAll(init, c) + (if last != c then [last] else [])
  }

  /**
    * `replace(c, "")` keeps every character other than `c`, in its original
    * order: it is the filter that drops `c`.
    */
  lemma {:induction false} RemoveAllIsFilter(s: string, c: char)
    ensures RemoveAll(s, c) == Filter(s, (x: char) => x != c)
  {
    if s != [] {
      RemoveAllIsFilter(s[..|s| - 1], c);
    }
  }

  /**
    * The text `perform_ocr` returns for the engine's raw output `raw`:
    * `raw.replace("\x0c", "").strip()`.  It holds no form feed, has no
    * whitespace at either end, and is empty exactly when `raw` holds only
    * whitespace (form feeds are whitespace too).
    */
  function PerformOcr(raw: string): (text: string)
    ensures FormFeed !in text
    ensures Trimmed(text)
    ensures text == [] <==> AllSpace(raw)
  {
    var noFF := RemoveAll(raw, FormFeed);
    RemoveAllKeepsSpace(raw, FormFeed);
    Strip(noFF)
  }

  /** Removing a whitespace character neither creates nor destroys an all-whitespace string. */
  lemma RemoveAllKeepsSpace(s: string, c: char)
    requires IsSpace(c)
    ensures AllSpace(RemoveAll(s, c)) <==> AllSpace(s)
  {
    var r := RemoveAll(s, c);
    if AllSpace(s) {
      forall k | 0 <= k < |r| ensures IsSpace(r[k]) {
        assert multiset(r)[r[k]] > 0;
        assert r[k] in multiset(s);
      }
    }
    if AllSpace(r) {
      forall k | 0 <= k < |s| ensures IsSpace(s[k]) {
        if s[k] != c {
          assert multiset(s)[s[k]] > 0;
          assert s[k] in multiset(r);
        }
      }
    }
  }

  /**
    * `Strip` is pinned down by its meaning: whatever sits between an
    * all-whitespace prefix and an all-whitespace suffix, and is itself
    * trimmed, is what `strip()` returns.
    */
  lemma {:induction false} StripUnique(a: string, m: string, b: string)
    requires AllSpace(a) && AllSpace(b) && Trimmed(m)
    ensures Strip(a + m + b) == m
    decreases |a| + |b|
  {
    var s := a + m + b;
    if a != [] {
      assert s[0] == a[0];
      assert s[1..] == a[1..] + m + b;
      StripUnique(a[1..], m, b);
    } else if m == [] {
      assert s == b;
    } else if b != [] {
      assert s[0] == m[0] && s[|s| - 1] == b[|b| - 1];
      assert s[..|s| - 1] == a + m + b[..|b| - 1];
      StripUnique(a, m, b[..|b| - 1]);
    } else {
      assert s == m;
    }
  }

  /** `r` sits in `s` at `i`, and everything in `s` around it is whitespace. */
  ghost predicate SpaceAround(s: string, r: string, i: nat) {
    i + |r| <= |s| && r == s[i..i + |r|] &&
    (forall k :: 0 <= k < i ==> IsSpace(s[k])) &&
    (forall k :: i + |r| <= k < |s| ==> IsSpace(s[k]))
  }

  /** Putting a whitespace character in front keeps `r` surrounded by whitespace, one place further on. */
  lemma SpaceAroundFirst(s: string, r: string, j: nat)
    requires s != [] && IsSpace(s[0]) && SpaceAround(s[1..], r, j)
    ensures SpaceAround(s, r, j + 1)
  {
    var t := s[1..];
    assert s[j + 1..j + 1 + |r|] == t[j..j + |r|];
    assert forall k :: 1 <= k < |s| ==> s[k] == t[k - 1];
  }

  /** Putting a whitespace character at the end keeps `r` surrounded by whitespace. */
  lemma SpaceAroundLast(s: string, r: string, i: nat)
    requires s != [] && IsSpace(s[|s| - 1]) && SpaceAround(s[..|s| - 1], r, i)
    ensures SpaceAround(s, r, i)
  {
    var t := s[..|s| - 1];
    assert s[i..i + |r|] == t[i..i + |r|];
    assert forall k :: 0 <= k < |t| ==> s[k] == t[k];
  }

  /**
    * `strip()` takes away only whitespace, from the two ends: its result
    * is the slice of `s` starting at `i`, and every character of `s` before
    * or after that slice is whitespace.
    */
  lemma {:induction false} StripRemovesOnlySpace(s: string) returns (i: nat)
    ensures SpaceAround(s, Strip(s), i)
  {
    if s != [] && IsSpace(s[0]) {
      var j := StripRemovesOnlySpace(s[1..]);
      SpaceAroundFirst(s, Strip(s), j);
      i := j + 1;
    } else if s != [] && IsSpace(s[|s| - 1]) {
      i := StripRemovesOnlySpace(s[..|s| - 1]);
      SpaceAroundLast(s, Strip(s), i);
    } else {
      i := 0;
    }
  }

  /** Stripping twice is stripping once. */
  lemma {:induction false} StripIdempotent(s: string)
    ensures Strip(Strip(s)) == Strip(s)
  {
    var r := Strip(s);
    assert [] + r + [] == r;
    StripUnique([], r, []);
  }

  /** Cleaning the output of `perform_ocr` again changes nothing. */
  lemma {:induction false} PerformOcrIdempotent(raw: string)
    ensures PerformOcr(PerformOcr(raw)) == PerformOcr(raw)
  {
    var text := PerformOcr(raw);
    assert RemoveAll(text, FormFeed) == text;
    StripIdempotent(RemoveAll(raw, FormFeed));
  }
}
