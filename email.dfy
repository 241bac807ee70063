/** The e-mail address pattern `^[^\s@]+@[^\s@]+\.[^\s@]+$` that all three
    forms test with `RegExp.prototype.test`. */
module EmailPattern {
  import opened Strings

  /** A character of the class `[^\s@]`. */
  predicate PatternChar(c: char) {
    !IsSpace(c) && c != '@'
  }

  /** A string the `[^\s@]+` repetition matches in full. */
  predicate PatternRun(s: string) {
    s != [] && forall i :: 0 <= i < |s| ==> PatternChar(s[i])
  }

  /** The language of the regular expression, in its own shape: three
      non-empty runs of `[^\s@]`, the first two separated by `@`, the last two
      by a `.` (the engine may choose any `.` that leaves both sides non-empty). */
  ghost predicate MatchesEmailRegex(s: string) {
    exists at, dot :: 0 < at && at + 1 < dot && dot + 1 < |s| && s[at] == '@' && s[dot] == '.'
      && PatternRun(s[..at]) && PatternRun(s[at + 1..dot]) && PatternRun(s[dot + 1..])
  }

  /** The position of the first `c` in `s`. */
  function IndexOf(s: string, c: char): (i: nat)
    requires c in s
    ensures i < |s| && s[i] == c && c !in s[..i]
  {
    if s[0] == c then 0
    else
      assert s == [s[0]] + s[1..];
      var i := IndexOf(s[1..], c);
      assert s[..i + 1] == [s[0]] + s[1..][..i];
      i + 1
  }

  /** A `.` that is neither the first nor the last character. */
  predicate HasInnerDot(d: string) {
    exists k :: 0 < k < |d| - 1 && d[k] == '.'
  }

  /** The test the forms apply, stated directly: no white space, exactly one
      `@` with something before it, and a `.` inside the part after it that is
      neither its first nor its last character. */
  predicate IsEmail(s: string) {
    NoSpace(s) && '@' in s &&
    var at := IndexOf(s, '@');
    0 < at && '@' !in s[at + 1..] && HasInnerDot(s[at + 1..])
  }

  /** The facts a regular-expression match gives about the characters of `s`. */
  lemma {:induction false} RegexSplitChars(s: string, at: nat, dot: nat)
    requires 0 < at && at + 1 < dot && dot + 1 < |s| && s[at] == '@' && s[dot] == '.'
    requires PatternRun(s[..at]) && PatternRun(s[at + 1..dot]) && PatternRun(s[dot + 1..])
    ensures forall i :: 0 <= i < |s| ==> !IsSpace(s[i]) && (s[i] == '@' ==> i == at)
  {
    var a, b, c := s[..at], s[at + 1..dot], s[dot + 1..];
    forall i | 0 <= i < |s| ensures !IsSpace(s[i]) && (s[i] == '@' ==> i == at) {
      if i < at {
        assert a[i] == s[i];
      } else if at < i < dot {
        assert b[i - at - 1] == s[i];
      } else if dot < i {
        assert c[i - dot - 1] == s[i];
      }
    }
  }

  /** Every string the regular expression matches passes the direct test. */
  lemma {:induction false} RegexMatchPassesEmailTest(s: string)
    requires MatchesEmailRegex(s)
    ensures IsEmail(s)
  {
    var at, dot :| 0 < at && at + 1 < dot && dot + 1 < |s| && s[at] == '@' && s[dot] == '.'
      && PatternRun(s[..at]) && PatternRun(s[at + 1..dot]) && PatternRun(s[dot + 1..]);
    RegexSplitChars(s, at, dot);
    assert '@' !in s[..at] by {
      forall i | 0 <= i < at ensures s[..at][i] != '@' {
        assert s[..at][i] == s[i];
      }
    }
    assert IndexOf(s, '@') == at;
    var d := s[at + 1..];
    assert '@' !in d by {
      forall k | 0 <= k < |d| ensures d[k] != '@' {
        assert d[k] == s[at + 1 + k];
      }
    }
    assert d[dot - at - 1] == '.';
  }

  /** Every string that passes the direct test is matched by the regular expression. */
  lemma {:induction false} EmailTestPassesRegex(s: string)
    requires IsEmail(s)
    ensures MatchesEmailRegex(s)
  {
    var at := IndexOf(s, '@');
    var d := s[at + 1..];
    var k :| 0 < k < |d| - 1 && d[k] == '.';
    var dot := at + 1 + k;
    var a, b, c := s[..at], s[at + 1..dot], s[dot + 1..];
    assert s[dot] == '.';
    assert PatternRun(a) by {
      forall i | 0 <= i < |a| ensures PatternChar(a[i]) {
        assert a[i] == s[i];
        assert a[i] in a;
      }
    }
    assert PatternRun(b) by {
      forall i | 0 <= i < |b| ensures PatternChar(b[i]) {
        assert b[i] == d[i] == s[at + 1 + i];
        assert d[i] in d;
      }
    }
    assert PatternRun(c) by {
      forall i | 0 <= i < |c| ensures PatternChar(c[i]) {
        assert c[i] == d[k + 1 + i] == s[dot + 1 + i];
        assert d[k + 1 + i] in d;
      }
    }
  }

  /** The direct test accepts exactly the strings the regular expression matches. */
  lemma EmailTestIsRegex(s: string)
    ensures IsEmail(s) <==> MatchesEmailRegex(s)
  {
    if IsEmail(s) {
      EmailTestPassesRegex(s);
    }
    if MatchesEmailRegex(s) {
      RegexMatchPassesEmailTest(s);
    }
  }

  /** An accepted address has no white space, so trimming it changes nothing:
      the forms test the untrimmed text and submit the trimmed one. */
  lemma EmailIsTrimmed(s: string)
    requires IsEmail(s)
    ensures Trim(s) == s
  {
    TrimNoSpace(s);
  }

  /** An accepted address is never blank, so the forms' "required" message
      and the pattern message cannot both apply. */
  lemma EmailIsNotBlank(s: string)
    ensures IsEmail(s) ==> !IsBlank(s)
  {
    if IsEmail(s) {
      EmailIsTrimmed(s);
    }
  }
}
