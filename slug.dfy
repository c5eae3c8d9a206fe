/** `slugify` of blocks/announcement: the URL segment a fallback path is built
    from. Unicode normalisation is the host's (`Browser.Host.normalizeNfkd`);
    the rest of the method chain is modelled step by step. */
module Slug {
  import Browser

  /** U+0300..U+036F: the combining diacritical marks removed after NFKD. */
  predicate IsCombiningMark(c: char) {
    0x300 <= c as int <= 0x36F
  }

  /** The removal of the combining marks, U+0300..U+036F. */
  function StripMarks(s: string): (r: string)
    ensures |r| <= |s|
    ensures forall i :: 0 <= i < |r| ==> !IsCombiningMark(r[i])
  {
    if s == [] then []
    else if IsCombiningMark(s[0]) then StripMarks(s[1..])
    else [s[0]] + StripMarks(s[1..])
  }

  /** Removing the marks keeps every other character, in order. */
  lemma {:induction false} StripMarksAppend(a: string, b: string)
    ensures StripMarks(a + b) == StripMarks(a) + StripMarks(b)
  {
    if a == [] {
      assert a + b == b;
    } else {
      assert (a + b)[0] == a[0];
      assert (a + b)[1..] == a[1..] + b;
      StripMarksAppend(a[1..], b);
    }
  }

  /** `.toLowerCase()` on the ASCII letters. */
  function LowerAscii(s: string): (r: string)
    ensures |r| == |s|
    ensures forall i :: 0 <= i < |s| ==> r[i] == (if 'A' <= s[i] <= 'Z' then (s[i] as int + 32) as char else s[i])
  {
    if s == [] then []
    else [if 'A' <= s[0] <= 'Z' then (s[0] as int + 32) as char else s[0]] + LowerAscii(s[1..])
  }

  /** `a-z`, `0-9` and U+4E00..U+9FFF: the characters a slug keeps. */
  predicate IsSlugChar(c: char) {
    ('a' <= c <= 'z') || ('0' <= c <= '9') || (0x4E00 <= c as int <= 0x9FFF)
  }

  /** Every character is a slug character or `-`. */
  ghost predicate SlugAlphabet(s: string) {
    forall i :: 0 <= i < |s| ==> IsSlugChar(s[i]) || s[i] == '-'
  }

  /** No `--` anywhere. */
  ghost predicate NoDoubleDash(s: string) {
    forall i :: 0 <= i < |s| - 1 ==> !(s[i] == '-' && s[i + 1] == '-')
  }

  ghost predicate HasSlugChar(s: string) {
    exists i :: 0 <= i < |s| && IsSlugChar(s[i])
  }

  /** The replacement of every maximal run of other
      characters becomes one `-`; `inRun` says the previous character already
      belonged to such a run. */
  function CollapseRuns(s: string, inRun: bool): string {
    if s == [] then []
    else if IsSlugChar(s[0]) then [s[0]] + CollapseRuns(s[1..], false)
    else if inRun then CollapseRuns(s[1..], true)
    else ['-'] + CollapseRuns(s[1..], true)
  }

  /** `.replace(/^-+|-+$/g, '')`, leading part */
  function DropLeadingDashes(s: string): (r: string)
    ensures |r| <= |s| && r == s[|s| - |r|..]
    ensures r == [] || r[0] != '-'
    ensures forall i :: 0 <= i < |s| - |r| ==> s[i] == '-'
  {
    if s != [] && s[0] == '-' then DropLeadingDashes(s[1..]) else s
  }

  /** `.replace(/^-+|-+$/g, '')`, trailing part */
  function DropTrailingDashes(s: string): (r: string)
    ensures |r| <= |s| && r == s[..|r|]
    ensures r == [] || r[|r| - 1] != '-'
    ensures forall i :: |r| <= i < |s| ==> s[i] == '-'
  {
    if s != [] && s[|s| - 1] == '-' then DropTrailingDashes(s[..|s| - 1]) else s
  }

  const MaxSlugLength := 80

  /** `slugify(text)` */
  function Slugify(host: Browser.Host, text: string): (r: string)
    ensures text == [] ==> r == []
    ensures |r| <= MaxSlugLength
  {
    if text == [] then []
    else
      var folded := LowerAscii(StripMarks(host.normalizeNfkd(text)));
      var trimmed := DropTrailingDashes(DropLeadingDashes(CollapseRuns(folded, false)));
      trimmed[..if |trimmed| < MaxSlugLength then |trimmed| else MaxSlugLength]
  }

  lemma {:induction false} CollapseRunsShape(s: string, inRun: bool)
    ensures SlugAlphabet(CollapseRuns(s, inRun))
    ensures NoDoubleDash(CollapseRuns(s, inRun))
    ensures inRun ==> CollapseRuns(s, inRun) == [] || CollapseRuns(s, inRun)[0] != '-'
    ensures HasSlugChar(CollapseRuns(s, inRun)) <==> HasSlugChar(s)
  {
    if s != [] {
      CollapseRunsShape(s[1..], !IsSlugChar(s[0]));
      var t := CollapseRuns(s[1..], !IsSlugChar(s[0]));
      var r := CollapseRuns(s, inRun);
      if IsSlugChar(s[0]) {
        assert r == [s[0]] + t;
        assert IsSlugChar(r[0]);
        assert HasSlugChar(r);
        assert HasSlugChar(s) by { assert IsSlugChar(s[0]); }
      } else {
        assert HasSlugChar(s) <==> HasSlugChar(s[1..]) by {
          if HasSlugChar(s) {
            var i :| 0 <= i < |s| && IsSlugChar(s[i]);
            assert s[1..][i - 1] == s[i];
          }
          if HasSlugChar(s[1..]) {
            var i :| 0 <= i < |s[1..]| && IsSlugChar(s[1..][i]);
            assert s[i + 1] == s[1..][i];
          }
        }
        if !inRun {
          assert r == ['-'] + t;
          assert HasSlugChar(r) <==> HasSlugChar(t) by {
            if HasSlugChar(r) {
              var i :| 0 <= i < |r| && IsSlugChar(r[i]);
              assert t[i - 1] == r[i];
            }
            if HasSlugChar(t) {
              var i :| 0 <= i < |t| && IsSlugChar(t[i]);
              assert r[i + 1] == t[i];
            }
          }
        }
      }
    }
  }

  /** A stretch of a well-shaped string is well-shaped. */
  lemma StretchShape(s: string, lo: nat, hi: nat)
    requires lo <= hi <= |s|
    requires SlugAlphabet(s) && NoDoubleDash(s)
    ensures SlugAlphabet(s[lo..hi]) && NoDoubleDash(s[lo..hi])
  {
    var t := s[lo..hi];
    assert forall i :: 0 <= i < |t| ==> t[i] == s[lo + i];
  }

  /** What `slugify` promises: an empty title gives an empty slug; otherwise the
      slug has at most 80 characters, all of them `a-z`, `0-9`, U+4E00..U+9FFF
      or `-`; it never starts with `-` and it never holds `--`; and it is empty
      exactly when the folded title holds no character a slug keeps. */
  lemma SlugifyShape(host: Browser.Host, text: string)
    ensures text == [] ==> Slugify(host, text) == []
    ensures var r := Slugify(host, text);
      |r| <= MaxSlugLength && SlugAlphabet(r) && NoDoubleDash(r) && (r == [] || r[0] != '-')
    ensures text != [] ==>
      (Slugify(host, text) == [] <==> !HasSlugChar(LowerAscii(StripMarks(host.normalizeNfkd(text)))))
  {
    if text != [] {
      var folded := LowerAscii(StripMarks(host.normalizeNfkd(text)));
      var c := CollapseRuns(folded, false);
      CollapseRunsShape(folded, false);
      DashTrimShape(c);
      var b := DropTrailingDashes(DropLeadingDashes(c));
      var n := if |b| < MaxSlugLength then |b| else MaxSlugLength;
      StretchShape(b, 0, n);
      assert Slugify(host, text) == b[0..n];
    }
  }

  /** Dropping the dashes at both ends of a well-shaped string leaves a
      well-shaped string that does not start with `-`, and it is empty exactly
      when the string held no slug character. */
  lemma DashTrimShape(c: string)
    requires SlugAlphabet(c) && NoDoubleDash(c)
    ensures var b := DropTrailingDashes(DropLeadingDashes(c));
      SlugAlphabet(b) && NoDoubleDash(b) && (b == [] || b[0] != '-') && (b != [] <==> HasSlugChar(c))
  {
    var a := DropLeadingDashes(c);
    StretchShape(c, |c| - |a|, |c|);
    var b := DropTrailingDashes(a);
    StretchShape(a, 0, |b|);
    assert b == [] || b[0] == a[0];
    DashTrimKeepsSlugChars(c);
  }

  lemma DashTrimKeepsSlugChars(c: string)
    requires SlugAlphabet(c)
    ensures DropTrailingDashes(DropLeadingDashes(c)) != [] <==> HasSlugChar(c)
  {
    var a := DropLeadingDashes(c);
    var b := DropTrailingDashes(a);
    if HasSlugChar(c) {
      var i :| 0 <= i < |c| && IsSlugChar(c[i]);
      assert |c| - |a| <= i;
      assert a[i - (|c| - |a|)] == c[i];
      assert i - (|c| - |a|) < |b|;
    }
    if b != [] {
      var k := |c| - |a|;
      assert b[0] == a[0] == c[k];
      assert IsSlugChar(c[k]);
    }
  }

  /** Truncation comes after trimming, so a slug may end in `-`: 79 letters, a
      space and one more letter give 80 characters ending in `-`. */
  lemma SlugMayEndInDash(host: Browser.Host, text: string)
    requires text == seq(79, i => 'a') + " b"
    requires host.normalizeNfkd(text) == text
    ensures var r := Slugify(host, text); |r| == MaxSlugLength && r[|r| - 1] == '-'
  {
    var a79 := seq(79, i => 'a');
    StripMarksIdentity(text);
    LowerAsciiIdentity(text);
    CollapseAllSlug(a79, false);
    CollapseAppend(a79, " b", false);
    assert CollapseRuns(" b", false) == "-b";
    var c := a79 + "-b";
    assert CollapseRuns(text, false) == c;
    assert DropLeadingDashes(c) == c;
    assert DropTrailingDashes(c) == c;
    assert c[..80][79] == '-';
  }

  lemma {:induction false} StripMarksIdentity(s: string)
    requires forall i :: 0 <= i < |s| ==> !IsCombiningMark(s[i])
    ensures StripMarks(s) == s
  {
    if s != [] {
      StripMarksIdentity(s[1..]);
      assert [s[0]] + s[1..] == s;
    }
  }

  lemma {:induction false} LowerAsciiIdentity(s: string)
    requires forall i :: 0 <= i < |s| ==> !('A' <= s[i] <= 'Z')
    ensures LowerAscii(s) == s
  {
  }

  lemma {:induction false} CollapseAllSlug(s: string, inRun: bool)
    requires forall i :: 0 <= i < |s| ==> IsSlugChar(s[i])
    ensures CollapseRuns(s, inRun) == s
  {
    if s != [] {
      CollapseAllSlug(s[1..], false);
      assert [s[0]] + s[1..] == s;
    }
  }

  lemma {:induction false} CollapseAppend(s: string, t: string, inRun: bool)
    requires s != [] && IsSlugChar(s[|s| - 1])
    requires forall i :: 0 <= i < |s| ==> IsSlugChar(s[i])
    ensures CollapseRuns(s + t, inRun) == CollapseRuns(s, inRun) + CollapseRuns(t, false)
  {
    assert (s + t)[1..] == s[1..] + t;
    if |s| > 1 {
      CollapseAppend(s[1..], t, false);
    } else {
      assert s[1..] + t == t;
    }
  }
}
