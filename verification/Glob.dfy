/** The IAM wildcard matcher of tags.go: an iterative scan with one backtrack point. */
module Glob {

  /** What a pattern means: `*` stands for any run of characters, `?` for any one. */
  predicate Matches(p: string, s: string)
    decreases |p| + |s|
  {
    if p == "" then s == ""
    else if p[0] == '*' then Matches(p[1..], s) || (s != "" && Matches(p, s[1..]))
    else s != "" && (p[0] == '?' || p[0] == s[0]) && Matches(p[1..], s[1..])
  }

  predicate AllStars(p: string) {
    forall i :: 0 <= i < |p| ==> p[i] == '*'
  }

  /**
   * The scan, from any place: `px` and `sx` are the next characters to compare, `star` the last star met
   * (-1 for none) and `mark` where the subject stood when it was last tried.
   */
  predicate Scan(p: string, s: string, px: nat, sx: nat, star: int, mark: nat)
    requires px <= |p| && sx <= |s| && -1 <= star < px && mark <= sx
    decreases |p| - star, |s| - mark, |p| - px
  {
    if sx == |s| then AllStars(p[px..])
    else if px < |p| && (p[px] == s[sx] || p[px] == '?') then Scan(p, s, px + 1, sx + 1, star, mark)
    else if px < |p| && p[px] == '*' then Scan(p, s, px + 1, sx, px, sx)
    else if star != -1 then Scan(p, s, star + 1, mark + 1, star, mark + 1)
    else false
  }

  /** What the matcher answers. */
  predicate Answer(p: string, s: string) {
    Scan(p, s, 0, 0, -1, 0)
  }

  /** The matcher itself. */
  method GlobMatch(pattern: string, s: string) returns (r: bool)
    ensures r == Answer(pattern, s)
    ensures '*' !in s ==> r == Matches(pattern, s)
  {
    ghost var answer := Answer(pattern, s);
    var px, sx := 0, 0;
    var star, mark := -1, 0;
    if '*' !in s {
      AnswerIsMeaning(pattern, s);
    }
    while sx < |s|
      invariant px <= |pattern| && sx <= |s| && -1 <= star < px && 0 <= mark <= sx
      invariant Scan(pattern, s, px, sx, star, mark) == answer
      decreases |pattern| - star, |s| - mark, |pattern| - px
    {
      if px < |pattern| && (pattern[px] == s[sx] || pattern[px] == '?') {
        px := px + 1;
        sx := sx + 1;
      } else if px < |pattern| && pattern[px] == '*' {
        star, mark := px, sx;
        px := px + 1;
      } else if star != -1 {
        px := star + 1;
        mark := mark + 1;
        sx := mark;
      } else {
        return false;
      }
    }
    ghost var at := px;
    while px < |pattern| && pattern[px] == '*'
      invariant at <= px <= |pattern|
      invariant forall i :: at <= i < px ==> pattern[i] == '*'
    {
      px := px + 1;
    }
    r := px == |pattern|;
    assert !r ==> !AllStars(pattern[at..]) by {
      if px < |pattern| {
        assert pattern[at..][px - at] == pattern[px];
      }
    }
  }

  // ----- the meaning of a star -----

  /** A star matches some run, and what follows it matches the rest. */
  lemma {:induction false} StarMeans(p: string, s: string)
    requires p != "" && p[0] == '*'
    ensures Matches(p, s) <==> exists k :: 0 <= k <= |s| && Matches(p[1..], s[k..])
    decreases |s|
  {
    assert s[0..] == s;
    if s != "" {
      StarMeans(p, s[1..]);
      forall k | 0 <= k <= |s| - 1 ensures s[1..][k..] == s[k + 1..] {
      }
      if j :| 0 <= j <= |s| && Matches(p[1..], s[j..]) {
        if j > 0 {
          assert s[1..][j - 1..] == s[j..];
        }
      }
      if Matches(p, s[1..]) {
        var k :| 0 <= k <= |s[1..]| && Matches(p[1..], s[1..][k..]);
        assert s[1..][k..] == s[k + 1..];
      }
    }
  }

  /** A pattern that starts with a star matches everything that ends in something it matches. */
  lemma {:induction false} StarAbsorbs(p: string, s: string, k: nat)
    requires p != "" && p[0] == '*' && k <= |s| && Matches(p, s[k..])
    ensures Matches(p, s)
  {
    if k == 0 {
      assert s[0..] == s;
    } else {
      assert s[1..][k - 1..] == s[k..];
      StarAbsorbs(p, s[1..], k - 1);
    }
  }

  /** A starless piece of `n` characters uses up exactly `n` characters of the subject. */
  lemma {:induction false} PieceUsesUp(p: string, s: string, n: nat)
    requires n <= |p| && (forall i :: 0 <= i < n ==> p[i] != '*') && Matches(p, s)
    ensures n <= |s| && Matches(p[n..], s[n..])
  {
    if n == 0 {
      assert p[0..] == p && s[0..] == s;
    } else {
      PieceUsesUp(p[1..], s[1..], n - 1);
      assert p[1..][n - 1..] == p[n..] && s[1..][n - 1..] == s[n..];
    }
  }

  lemma {:induction false} NothingLeft(p: string)
    ensures Matches(p, "") <==> AllStars(p)
  {
    if p != "" {
      NothingLeft(p[1..]);
      if AllStars(p) {
        assert AllStars(p[1..]);
      }
      if p[0] == '*' && AllStars(p[1..]) {
        assert forall i :: 0 < i < |p| ==> p[i] == p[1..][i - 1];
      }
    }
  }

  // ----- one backtrack point is enough -----

  /** Some later start of the text behind the last star matches. */
  ghost predicate Retry(p: string, s: string, star: int, mark: nat)
    requires -1 <= star < |p|
  {
    star != -1 && exists m :: mark < m <= |s| && Matches(p[star + 1..], s[m..])
  }

  /** Since the last star, only starless pattern characters have been matched, one for one. */
  ghost predicate Aligned(p: string, px: nat, sx: nat, star: int, mark: nat) {
    star != -1 ==>
      && 0 <= star < px <= |p| && mark <= sx && p[star] == '*' && sx - mark == px - star - 1
      && forall i :: star < i < px ==> p[i] != '*'
  }

  /** Whatever a retry of the previous star could match, the star just reached can match as well. */
  lemma ForgettingIsSafe(p: string, s: string, px: nat, sx: nat, star: int, mark: nat)
    requires px < |p| && sx <= |s| && -1 <= star < px && mark <= sx && Aligned(p, px, sx, star, mark)
    requires p[px] == '*' && Retry(p, s, star, mark)
    ensures Matches(p[px..], s[sx..])
  {
    var m :| mark < m <= |s| && Matches(p[star + 1..], s[m..]);
    var n := px - star - 1;
    PieceUsesUp(p[star + 1..], s[m..], n);
    assert p[star + 1..][n..] == p[px..] && s[m..][n..] == s[m + n..];
    assert s[sx..][m + n - sx..] == s[m + n..];
    StarAbsorbs(p[px..], s[sx..], m + n - sx);
  }

  lemma RetryStep(p: string, s: string, star: int, mark: nat)
    requires 0 <= star < |p| && mark < |s|
    ensures Retry(p, s, star, mark) <==> Matches(p[star + 1..], s[mark + 1..]) || Retry(p, s, star, mark + 1)
  {
  }

  lemma NewStar(p: string, s: string, px: nat, sx: nat)
    requires px < |p| && sx <= |s| && p[px] == '*'
    ensures Matches(p[px..], s[sx..]) <==> Matches(p[px + 1..], s[sx..]) || Retry(p, s, px, sx)
  {
    StarMeans(p[px..], s[sx..]);
    assert p[px..][1..] == p[px + 1..];
    assert s[sx..][0..] == s[sx..];
    if k :| 0 <= k <= |s[sx..]| && Matches(p[px..][1..], s[sx..][k..]) {
      assert s[sx..][k..] == s[sx + k..];
    }
    if m :| sx < m <= |s| && Matches(p[px + 1..], s[m..]) {
      assert s[sx..][m - sx..] == s[m..];
    }
  }

  lemma NoRetryAtEnd(p: string, s: string, px: nat, star: int, mark: nat)
    requires px <= |p| && -1 <= star < px && mark <= |s| && Aligned(p, px, |s|, star, mark) && star < |p|
    ensures !Retry(p, s, star, mark)
  {
    if Retry(p, s, star, mark) {
      var m :| mark < m <= |s| && Matches(p[star + 1..], s[m..]);
      PieceUsesUp(p[star + 1..], s[m..], px - star - 1);
      assert false;
    }
  }

  /** The scan answers whether the rest matches from here or a retry does. */
  ghost predicate ScanRight(p: string, s: string, px: nat, sx: nat, star: int, mark: nat)
    requires px <= |p| && sx <= |s| && -1 <= star < px && mark <= sx
  {
    Scan(p, s, px, sx, star, mark) <==> Matches(p[px..], s[sx..]) || Retry(p, s, star, mark)
  }

  lemma ScanEnds(p: string, s: string, px: nat, star: int, mark: nat)
    requires px <= |p| && -1 <= star < px && mark <= |s| && Aligned(p, px, |s|, star, mark)
    ensures ScanRight(p, s, px, |s|, star, mark)
  {
    assert s[|s|..] == "";
    NothingLeft(p[px..]);
    NoRetryAtEnd(p, s, px, star, mark);
    hide Matches, Aligned, Retry;
  }

  lemma ScanConsumes(p: string, s: string, px: nat, sx: nat, star: int, mark: nat)
    requires px < |p| && sx < |s| && -1 <= star < px && mark <= sx && s[sx] != '*'
    requires (p[px] == s[sx] || p[px] == '?') && ScanRight(p, s, px + 1, sx + 1, star, mark)
    ensures ScanRight(p, s, px, sx, star, mark)
  {
    assert Matches(p[px..], s[sx..]) == Matches(p[px + 1..], s[sx + 1..]) by {
      hide Scan, Retry;
      assert p[px..][1..] == p[px + 1..] && s[sx..][1..] == s[sx + 1..] && p[px..][0] == p[px] && s[sx..][0] == s[sx];
    }
    assert Scan(p, s, px, sx, star, mark) == Scan(p, s, px + 1, sx + 1, star, mark);
    hide Matches, Scan, Retry;
  }

  lemma ScanMeetsStar(p: string, s: string, px: nat, sx: nat, star: int, mark: nat)
    requires px < |p| && sx < |s| && -1 <= star < px && mark <= sx && Aligned(p, px, sx, star, mark)
    requires s[sx] != '*' && p[px] == '*' && ScanRight(p, s, px + 1, sx, px, sx)
    ensures ScanRight(p, s, px, sx, star, mark)
  {
    assert Scan(p, s, px, sx, star, mark) == Scan(p, s, px + 1, sx, px, sx);
    hide Matches, Scan, Aligned;
    NewStar(p, s, px, sx);
    if Retry(p, s, star, mark) {
      ForgettingIsSafe(p, s, px, sx, star, mark);
    }
    hide Retry;
  }

  lemma ScanRetries(p: string, s: string, px: nat, sx: nat, star: int, mark: nat)
    requires px <= |p| && sx < |s| && 0 <= star < px && mark <= sx && mark < |s| && p[star] == '*'
    requires px < |p| ==> p[px] != s[sx] && p[px] != '?' && p[px] != '*'
    requires ScanRight(p, s, star + 1, mark + 1, star, mark + 1)
    ensures ScanRight(p, s, px, sx, star, mark)
  {
    assert Scan(p, s, px, sx, star, mark) == Scan(p, s, star + 1, mark + 1, star, mark + 1);
    DeadEnd(p, s, px, sx);
    RetryStep(p, s, star, mark);
    hide Matches, Scan, Retry;
  }

  /** A literal that differs from the next character, or no pattern left, matches nothing. */
  lemma DeadEnd(p: string, s: string, px: nat, sx: nat)
    requires px <= |p| && sx < |s| && (px < |p| ==> p[px] != s[sx] && p[px] != '?' && p[px] != '*')
    ensures !Matches(p[px..], s[sx..])
  {
  }

  lemma {:induction false} ScanIsMeaning(p: string, s: string, px: nat, sx: nat, star: int, mark: nat)
    requires px <= |p| && sx <= |s| && -1 <= star < px && mark <= sx && Aligned(p, px, sx, star, mark)
    requires '*' !in s
    ensures ScanRight(p, s, px, sx, star, mark)
    decreases |p| - star, |s| - mark, |p| - px
  {
    hide Matches, Scan, Retry, ScanRight;
    if sx == |s| {
      ScanEnds(p, s, px, star, mark);
    } else {
      assert s[sx] in s;
      if px < |p| && (p[px] == s[sx] || p[px] == '?') {
        ScanIsMeaning(p, s, px + 1, sx + 1, star, mark);
        ScanConsumes(p, s, px, sx, star, mark);
      } else if px < |p| && p[px] == '*' {
        ScanIsMeaning(p, s, px + 1, sx, px, sx);
        ScanMeetsStar(p, s, px, sx, star, mark);
      } else if star != -1 {
        ScanIsMeaning(p, s, star + 1, mark + 1, star, mark + 1);
        ScanRetries(p, s, px, sx, star, mark);
      } else {
        ScanFails(p, s, px, sx, mark);
      }
    }
  }

  lemma ScanFails(p: string, s: string, px: nat, sx: nat, mark: nat)
    requires px <= |p| && sx < |s| && mark <= sx
    requires px < |p| ==> p[px] != s[sx] && p[px] != '?' && p[px] != '*'
    ensures ScanRight(p, s, px, sx, -1, mark)
  {
    DeadEnd(p, s, px, sx);
    hide Matches;
  }

  /** For every pattern and every subject without a star, the matcher decides the wildcard meaning. */
  lemma AnswerIsMeaning(p: string, s: string)
    requires '*' !in s
    ensures Answer(p, s) <==> Matches(p, s)
  {
    hide Matches, Scan;
    ScanIsMeaning(p, s, 0, 0, -1, 0);
    assert p[0..] == p && s[0..] == s;
  }

  // ----- exactly which subjects are safe -----

  /** `p` agrees with `s` place by place, wildcard `?` allowed, and has one `?` more. */
  ghost predicate OneTooLong(p: string, s: string) {
    |p| == |s| + 1 && p[|s|] == '?' && forall i :: 0 <= i < |s| ==> p[i] == s[i] || p[i] == '?'
  }

  lemma {:induction false} OneTooLongFails(p: string, s: string, i: nat)
    requires OneTooLong(p, s) && i <= |s|
    ensures !Scan(p, s, i, i, -1, 0)
    decreases |s| - i
  {
    if i < |s| {
      OneTooLongFails(p, s, i + 1);
    } else {
      assert p[i..][0] == '?';
    }
  }

  function Questions(n: nat): string {
    if n == 0 then "" else "?" + Questions(n - 1)
  }

  lemma {:induction false} QuestionsMatch(s: string)
    ensures |Questions(|s|)| == |s| && Matches(Questions(|s|), s)
    ensures forall i :: 0 <= i < |s| ==> Questions(|s|)[i] == '?'
  {
    if s != "" {
      QuestionsMatch(s[1..]);
    }
  }

  lemma {:induction false} LiteralPrefixMatches(lit: string, p: string, s: string)
    requires '*' !in lit && Matches(p, s)
    ensures Matches(lit + p, lit + s)
  {
    if lit == "" {
      assert lit + p == p && lit + s == s;
    } else {
      assert forall i :: 0 <= i < |lit| ==> lit[i] in lit;
      assert '*' !in lit[1..];
      LiteralPrefixMatches(lit[1..], p, s);
      assert (lit + p)[1..] == lit[1..] + p && (lit + s)[1..] == lit[1..] + s;
    }
  }

  /** For a subject holding a star some pattern matches it in meaning and is refused. */
  lemma StarredSubjectFails(s: string) returns (p: string)
    requires '*' in s
    ensures Matches(p, s) && !Answer(p, s)
    ensures exists k :: 0 <= k < |s| && k < |p| && p[k] == '*'
  {
    var k := FirstStar(s);
    var tail := s[k..];
    QuestionsMatch(tail);
    var q := "*" + Questions(|tail|);
    p := s[..k] + q;
    assert q[1..] == Questions(|tail|);
    LiteralPrefixMatches(s[..k], q, tail);
    assert s == s[..k] + tail;
    OneTooLongFails(p, s, 0);
    assert p[k] == '*';
  }

  lemma FirstStar(s: string) returns (k: nat)
    requires '*' in s
    ensures k < |s| && s[k] == '*' && '*' !in s[..k]
  {
    k := 0;
    while s[k] != '*'
      invariant k < |s| && '*' !in s[..k] && '*' in s[k..]
      decreases |s| - k
    {
      assert s[k..] == [s[k]] + s[k + 1..];
      assert s[..k + 1] == s[..k] + [s[k]];
      k := k + 1;
    }
  }

  /** The matcher decides every pattern against a subject exactly when the subject holds no star. */
  lemma SafeSubjects(s: string)
    ensures (forall p :: Answer(p, s) <==> Matches(p, s)) <==> '*' !in s
  {
    if '*' in s {
      var p := StarredSubjectFails(s);
    } else {
      forall p ensures Answer(p, s) <==> Matches(p, s) {
        AnswerIsMeaning(p, s);
      }
    }
  }
}
