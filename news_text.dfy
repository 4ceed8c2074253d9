/** `NewsText`: the string handling of the study-news popup. It covers:
    - the RSS description cleanup (`replace(/<[^>]*>/g, '')` then `slice(0, 200)`);
    - `split`/`join` on a literal separator;
    - JavaScript's `trim`;
    - the classifier that turns each `\n\n`-separated paragraph of an
      article body into a heading, a sub-heading, a bullet list, a
      numbered list or a plain paragraph. */
module NewsText {
  import opened Seqs

  // ---------------------------------------------------------------------------
  // Tag stripping and truncation
  // ---------------------------------------------------------------------------

  /** The index of the first `c` in `s`. */
  function IndexOfChar(s: string, c: char): (r: Option<nat>)
    ensures r.None? <==> c !in s
    ensures r.Some? ==> r.value < |s| && s[r.value] == c && c !in s[..r.value]
    decreases |s|
  {
    if s == [] then None
    else if s[0] == c then Some(0)
    else
      match IndexOfChar(s[1..], c)
      case None => None
      case Some(k) =>
        assert s[..k + 1] == [s[0]] + s[1..][..k];
        Some(k + 1)
  }

  /** No `<` is followed, anywhere later, by a `>`: nothing is left that the
      pattern `<[^>]*>` could match. */
  predicate NoTags(s: string) {
    forall i, j :: 0 <= i < j < |s| && s[i] == '<' ==> s[j] != '>'
  }

  /** `s.replace(/<[^>]*>/g, '')`. The scan goes from left to right. At a `<`,
      the tag runs to the first `>` after it and is dropped whole. A `<` with
      no `>` anywhere after it cannot start a match, and neither can any
      later `<`, so the rest of the text is kept as it is. */
  function StripTags(s: string): (r: string)
    ensures |r| <= |s|
    ensures forall c :: c in r ==> c in s
    ensures NoTags(r)
    decreases |s|
  {
    if s == [] then []
    else if s[0] == '<' then
      match IndexOfChar(s[1..], '>')
      case None =>
        assert forall j :: 0 < j < |s| ==> s[j] == s[1..][j - 1];
        s
      case Some(k) =>
        var rest := s[k + 2..];
        assert forall c :: c in rest ==> c in s by {
          forall c | c in rest ensures c in s {
            var j :| 0 <= j < |rest| && rest[j] == c;
            assert s[k + 2 + j] == c;
          }
        }
        StripTags(rest)
    else
      var rest := StripTags(s[1..]);
      assert forall c :: c in s[1..] ==> c in s;
      var r := [s[0]] + rest;
      assert forall j :: 0 < j < |r| ==> r[j] == rest[j - 1];
      r
  }

  /** Text with no tag left passes through unchanged, so stripping twice is
      stripping once. */
  lemma {:induction false} StripTagsFixesTagFree(s: string)
    requires NoTags(s)
    ensures StripTags(s) == s
    decreases |s|
  {
    if s != [] {
      if s[0] == '<' {
        assert '>' !in s[1..] by {
          forall j | 0 <= j < |s[1..]| ensures s[1..][j] != '>' {
            assert s[1..][j] == s[j + 1];
          }
        }
      } else {
        assert NoTags(s[1..]) by {
          forall i, j | 0 <= i < j < |s[1..]| && s[1..][i] == '<' ensures s[1..][j] != '>' {
            assert s[1..][i] == s[i + 1] && s[1..][j] == s[j + 1];
          }
        }
        StripTagsFixesTagFree(s[1..]);
      }
    }
  }

  lemma StripTagsIdempotent(s: string)
    ensures StripTags(StripTags(s)) == StripTags(s)
  {
    StripTagsFixesTagFree(StripTags(s));
  }

  /** Text before the first `<` is kept verbatim. */
  lemma {:induction false} StripTagsKeepsPlainPrefix(a: string, b: string)
    requires '<' !in a
    ensures StripTags(a + b) == a + StripTags(b)
    decreases |a|
  {
    if a != [] {
      assert (a + b)[0] == a[0];
      assert (a + b)[1..] == a[1..] + b;
      StripTagsKeepsPlainPrefix(a[1..], b);
      assert a == [a[0]] + a[1..];
    } else {
      assert a + b == b;
    }
  }

  /** A complete tag is dropped whole. */
  lemma DropsCompleteTag(inner: string, b: string)
    requires '>' !in inner
    ensures StripTags("<" + inner + ">" + b) == StripTags(b)
  {
    var s := "<" + inner + ">" + b;
    assert s[1..] == inner + ">" + b;
    var k := |inner|;
    assert s[1..][k] == '>';
    assert s[1..][..k] == inner;
    assert s[k + 2..] == b;
  }

  /** The length limit of the RSS descriptions. */
  const DescriptionLimit: nat := 200

  /** `s.slice(0, n)`: the longest prefix of at most `n` characters. */
  function Truncate(s: string, n: nat): (r: string)
    ensures |r| <= n && |r| <= |s|
    ensures r <= s
    ensures |s| <= n ==> r == s
    ensures |s| > n ==> |r| == n
  {
    if |s| <= n then s else s[..n]
  }

  /** Cutting keeps text tag-free: tags are removed before `slice`. */
  lemma TruncateKeepsNoTags(s: string, n: nat)
    requires NoTags(s)
    ensures NoTags(Truncate(s, n))
  {
    var r := Truncate(s, n);
    forall i, j | 0 <= i < j < |r| && r[i] == '<' ensures r[j] != '>' {
      assert r[i] == s[i] && r[j] == s[j];
    }
  }

  // ---------------------------------------------------------------------------
  // Searching, splitting and joining on a literal separator
  // ---------------------------------------------------------------------------

  /** `sep` occurs in `s` at position `i`. */
  predicate OccursAt(s: string, sep: string, i: int) {
    0 <= i && i + |sep| <= |s| && s[i..i + |sep|] == sep
  }

  /** `s.includes(sep)`. */
  predicate Contains(s: string, sep: string) {
    exists i :: 0 <= i <= |s| && OccursAt(s, sep, i)
  }

  /** An occurrence after the first position is an occurrence in the tail. */
  lemma OccursAtTail(s: string, sep: string, i: int)
    requires 1 <= i && |s| >= 1
    ensures OccursAt(s, sep, i) <==> OccursAt(s[1..], sep, i - 1)
  {
    if i + |sep| <= |s| {
      assert s[1..][i - 1..i - 1 + |sep|] == s[i..i + |sep|];
    }
  }

  /** `s.indexOf(sep)` for a non-empty `sep`: its first occurrence. */
  function IndexOf(s: string, sep: string): (r: Option<nat>)
    requires |sep| > 0
    ensures r.None? <==> !Contains(s, sep)
    ensures r.Some? ==> OccursAt(s, sep, r.value)
    ensures r.Some? ==> forall i :: 0 <= i < r.value ==> !OccursAt(s, sep, i)
    decreases |s|
  {
    if |s| < |sep| then None
    else if s[..|sep|] == sep then
      assert OccursAt(s, sep, 0);
      Some(0)
    else
      match IndexOf(s[1..], sep)
      case None =>
        assert forall i :: 1 <= i ==> !OccursAt(s, sep, i) by {
          forall i | 1 <= i {
            OccursAtTail(s, sep, i);
          }
        }
        None
      case Some(k) =>
        OccursAtTail(s, sep, k + 1);
        assert forall i :: 1 <= i <= k ==> !OccursAt(s, sep, i) by {
          forall i | 1 <= i <= k {
            OccursAtTail(s, sep, i);
          }
        }
        Some(k + 1)
  }

  /** `pieces.join(sep)`. */
  function Join(pieces: seq<string>, sep: string): string
    decreases |pieces|
  {
    if pieces == [] then ""
    else if |pieces| == 1 then pieces[0]
    else pieces[0] + sep + Join(pieces[1..], sep)
  }

  /** `s.split(sep)` for a non-empty literal `sep`: the text between
      successive non-overlapping occurrences, found from the left. */
  function Split(s: string, sep: string): (r: seq<string>)
    requires |sep| > 0
    ensures |r| >= 1
    ensures forall p :: p in r ==> !Contains(p, sep)
    decreases |s|
  {
    match IndexOf(s, sep)
    case None => [s]
    case Some(k) =>
      var head := s[..k];
      assert !Contains(head, sep) by {
        forall i | OccursAt(head, sep, i) ensures false {
          assert s[i..i + |sep|] == head[i..i + |sep|];
          assert OccursAt(s, sep, i);
        }
      }
      [head] + Split(s[k + |sep|..], sep)
  }

  /** Where `split` cuts: a text without the separator is one piece;
      otherwise the first piece runs up to the leftmost occurrence, the
      separator follows it, and the other pieces are the split of the rest. */
  lemma {:induction false} SplitAtFirst(s: string, sep: string)
    requires |sep| > 0
    ensures !Contains(s, sep) ==> Split(s, sep) == [s]
    ensures Contains(s, sep) ==>
              var r := Split(s, sep);
              && |r| >= 2 && StartsWith(s, r[0] + sep)
              && (forall i :: 0 <= i < |r[0]| ==> !OccursAt(s, sep, i))
              && r[1..] == Split(s[|r[0]| + |sep|..], sep)
  {
    match IndexOf(s, sep)
    case None =>
    case Some(k) =>
      var r := Split(s, sep);
      var rest := Split(s[k + |sep|..], sep);
      assert r == [s[..k]] + rest;
      assert r[0] == s[..k];
      assert r[1..] == rest;
      assert s[..k + |sep|] == s[..k] + sep by {
        assert s[k..k + |sep|] == sep;
      }
  }

  /** Splitting and joining again gives back the text. */
  lemma {:induction false} JoinSplit(s: string, sep: string)
    requires |sep| > 0
    ensures Join(Split(s, sep), sep) == s
    decreases |s|
  {
    var r := Split(s, sep);
    SplitAtFirst(s, sep);
    if Contains(s, sep) {
      var k := |r[0]|;
      var rest := s[k + |sep|..];
      JoinSplit(rest, sep);
      assert |r| >= 2;
      assert Join(r, sep) == r[0] + sep + Join(r[1..], sep);
      assert s[..k + |sep|] == r[0] + sep;
      assert s == s[..k + |sep|] + rest;
    }
  }

  /** A text that starts with the separator splits into an empty piece and at least one more. */
  lemma SplitLeadingSeparator(s: string, sep: string)
    requires |sep| > 0 && |s| >= |sep| && s[..|sep|] == sep
    ensures |Split(s, sep)| >= 2 && Split(s, sep)[0] == ""
  {
    assert OccursAt(s, sep, 0);
  }


  /** For a one-character separator, splitting undoes joining pieces that do
      not contain it: this is how `split('\n')` gives back the lines. */
  lemma {:induction false} SplitJoin(pieces: seq<string>, sep: string)
    requires |sep| == 1 && |pieces| >= 1
    requires forall p :: p in pieces ==> !Contains(p, sep)
    ensures Split(Join(pieces, sep), sep) == pieces
    decreases |pieces|
  {
    if |pieces| > 1 {
      var a := pieces[0];
      var b := Join(pieces[1..], sep);
      assert Join(pieces, sep) == a + sep + b;
      assert a in pieces;
      SplitFirstPiece(a, sep, b);
      SplitJoin(pieces[1..], sep);
    }
  }

  /** A one-character separator after a piece without it is where `split`
      cuts first. */
  lemma {:induction false} SplitFirstPiece(a: string, sep: string, b: string)
    requires |sep| == 1 && !Contains(a, sep)
    ensures Split(a + sep + b, sep) == [a] + Split(b, sep)
  {
    var s := a + sep + b;
    assert s[|a|..|a| + 1] == sep;
    assert OccursAt(s, sep, |a|);
    var r := Split(s, sep);
    SplitAtFirst(s, sep);
    assert s[|r[0]|..|r[0]| + 1] == (r[0] + sep)[|r[0]|..];
    assert OccursAt(s, sep, |r[0]|);
    assert forall i :: 0 <= i < |a| ==> !OccursAt(s, sep, i) by {
      forall i | 0 <= i < |a| ensures !OccursAt(s, sep, i) {
        assert s[i..i + 1] == a[i..i + 1];
        assert !OccursAt(a, sep, i);
      }
    }
    assert |r[0]| == |a|;
    assert r[0] == s[..|a|] == a;
    assert s[|a| + 1..] == b;
    assert r == [r[0]] + r[1..];
  }

  // ---------------------------------------------------------------------------
  // Prefixes, suffixes, digits and whitespace
  // ---------------------------------------------------------------------------

  /** `s.startsWith(p)`. */
  predicate StartsWith(s: string, p: string) {
    |p| <= |s| && s[..|p|] == p
  }

  /** `s.endsWith(p)`. */
  predicate EndsWith(s: string, p: string) {
    |p| <= |s| && s[|s| - |p|..] == p
  }

  /** `\d` in a JavaScript regular expression without the `u` flag. */
  predicate IsDigit(c: char) {
    '0' <= c <= '9'
  }

  /** The number of leading decimal digits. */
  function LeadingDigits(s: string): (n: nat)
    ensures n <= |s|
    ensures forall i :: 0 <= i < n ==> IsDigit(s[i])
    ensures n < |s| ==> !IsDigit(s[n])
    decreases |s|
  {
    if s != [] && IsDigit(s[0]) then 1 + LeadingDigits(s[1..]) else 0
  }

  /** `s.match(/^\d+\./)` as the classifier computes it: digits, then a dot. */
  predicate IsNumbered(s: string) {
    var n := LeadingDigits(s);
    1 <= n < |s| && s[n] == '.'
  }

  /** The pattern `^\d+\.` itself: a non-empty run of digits followed by a dot. */
  predicate MatchesNumberPattern(s: string) {
    exists k :: 1 <= k < |s| && s[k] == '.' && forall i :: 0 <= i < k ==> IsDigit(s[i])
  }

  /** The scan for leading digits decides exactly the regular expression. */
  lemma NumberedIffPattern(s: string)
    ensures IsNumbered(s) <==> MatchesNumberPattern(s)
  {
    var n := LeadingDigits(s);
    if MatchesNumberPattern(s) {
      var k :| 1 <= k < |s| && s[k] == '.' && forall i :: 0 <= i < k ==> IsDigit(s[i]);
      assert !IsDigit(s[k]);
      assert n == k;
    }
    if IsNumbered(s) {
      assert 1 <= n < |s| && s[n] == '.' && forall i :: 0 <= i < n ==> IsDigit(s[i]);
    }
  }

  /** The characters JavaScript's `trim` and `\s` remove: the white space and
      line terminators of the ECMAScript grammar (the `Zs` category written out). */
  predicate IsWhiteSpace(c: char) {
    c == '\t' || c == '\n' || c == '\U{B}' || c == '\U{C}' || c == '\r' || c == ' '
    || c == '\U{A0}' || c == '\U{1680}' || ('\U{2000}' <= c <= '\U{200A}')
    || c == '\U{2028}' || c == '\U{2029}' || c == '\U{202F}' || c == '\U{205F}'
    || c == '\U{3000}' || c == '\U{FEFF}'
  }

  /** Drops leading white space. */
  function TrimStart(s: string): (r: string)
    ensures |r| <= |s| && r == s[|s| - |r|..]
    ensures r == [] || !IsWhiteSpace(r[0])
    ensures forall i :: 0 <= i < |s| - |r| ==> IsWhiteSpace(s[i])
    decreases |s|
  {
    if s != [] && IsWhiteSpace(s[0]) then TrimStart(s[1..]) else s
  }

  /** Drops trailing white space. */
  function TrimEnd(s: string): (r: string)
    ensures |r| <= |s| && r == s[..|r|]
    ensures r == [] || !IsWhiteSpace(r[|r| - 1])
    ensures forall i :: |r| <= i < |s| ==> IsWhiteSpace(s[i])
    decreases |s|
  {
    if s != [] && IsWhiteSpace(s[|s| - 1]) then TrimEnd(s[..|s| - 1]) else s
  }

  /** No white space at either end. */
  predicate Trimmed(item: string) {
    item == [] || (!IsWhiteSpace(item[0]) && !IsWhiteSpace(item[|item| - 1]))
  }

  /** `s.trim()`: the text without white space at either end. */
  function Trim(s: string): (r: string)
    ensures Trimmed(r)
    ensures |r| <= |s|
  {
    TrimEnd(TrimStart(s))
  }

  /** What `trim` keeps: the slice of `s` between a white-space prefix and a
      white-space suffix. With the slice neither starting nor ending with
      white space, only one slice is like that, so this pins `trim` down. */
  lemma {:induction false} TrimExact(s: string)
    ensures exists i, j :: 0 <= i <= j <= |s| && Trim(s) == s[i..j]
                          && (forall k :: 0 <= k < i ==> IsWhiteSpace(s[k]))
                          && (forall k :: j <= k < |s| ==> IsWhiteSpace(s[k]))
  {
    var t := TrimStart(s);
    var i := |s| - |t|;
    var j := i + |Trim(s)|;
    TrimEndOfSuffix(s, i, t);
    assert 0 <= i <= j <= |s| && Trim(s) == s[i..j]
           && (forall k :: 0 <= k < i ==> IsWhiteSpace(s[k]))
           && (forall k :: j <= k < |s| ==> IsWhiteSpace(s[k]));
  }

  /** `trimEnd` of a suffix `s[i..]` keeps a slice of `s` and drops only white space. */
  lemma {:induction false} TrimEndOfSuffix(s: string, i: nat, t: string)
    requires i <= |s| && t == s[i..]
    ensures i + |TrimEnd(t)| <= |s| && TrimEnd(t) == s[i..i + |TrimEnd(t)|]
    ensures forall k :: i + |TrimEnd(t)| <= k < |s| ==> IsWhiteSpace(s[k])
  {
    var r := TrimEnd(t);
    assert r == t[..|r|];
    forall k | i + |r| <= k < |s| ensures IsWhiteSpace(s[k]) {
      assert s[k] == t[k - i];
    }
  }

  /** Trimming a trimmed text changes nothing. */
  lemma {:induction false} TrimIdempotent(s: string)
    ensures Trim(Trim(s)) == Trim(s)
  {
    TrimTrimmed(Trim(s));
  }

  /** `s.replace(c, '')` for a one-character string: only the first occurrence goes. */
  function ReplaceFirst(s: string, c: char): (r: string)
    ensures c in s ==> exists k :: 0 <= k < |s| && s[k] == c && c !in s[..k] && r == s[..k] + s[k + 1..]
    ensures c !in s ==> r == s
  {
    match IndexOfChar(s, c)
    case None => s
    case Some(k) => s[..k] + s[k + 1..]
  }

  /** `s.replace(/^\d+\.\s*\/, '')`: the number, its dot and the white space after it go. */
  function DropNumber(s: string): string {
    if IsNumbered(s) then TrimStart(s[LeadingDigits(s) + 1..]) else s
  }

  /** Only a numbered item changes, and what is left of it is a shorter suffix. */
  lemma {:induction false} DropNumberShape(s: string)
    ensures IsNumbered(s) ==> |DropNumber(s)| < |s| && DropNumber(s) == s[|s| - |DropNumber(s)|..]
    ensures !IsNumbered(s) ==> DropNumber(s) == s
  {
    if IsNumbered(s) {
      TrimStartOfSuffix(s, LeadingDigits(s) + 1);
    }
  }

  /** Trimming the start of a suffix of `s` leaves a suffix of `s`. */
  lemma {:induction false} TrimStartOfSuffix(s: string, k: nat)
    requires k <= |s|
    ensures |TrimStart(s[k..])| <= |s| - k
    ensures TrimStart(s[k..]) == s[|s| - |TrimStart(s[k..])|..]
  {
    var r := TrimStart(s[k..]);
    assert r == s[|s| - |r|..] by {
      SuffixOfSuffix(s, k, |r|);
    }
  }

  /** The white space after the number's dot goes with it. */
  lemma DropNumberTrimsStart(s: string)
    requires IsNumbered(s)
    ensures DropNumber(s) == [] || !IsWhiteSpace(DropNumber(s)[0])
  {
  }

  /** A suffix of a suffix of `s` is a suffix of `s`. */
  lemma SuffixOfSuffix(s: string, k: nat, m: nat)
    requires k <= |s| && m <= |s| - k
    ensures s[k..][|s| - k - m..] == s[|s| - m..]
  {
  }

  // ---------------------------------------------------------------------------
  // The paragraph classifier
  // ---------------------------------------------------------------------------

  const ParagraphBreak := "\n\n"
  const Bold := "**"
  const Bullet: char := '\U{2022}'

  /** How one paragraph of an article body is rendered, with the text the
      renderer puts in it. */
  datatype Block =
    | Heading(text: string)
    | SubHeading(title: string, rest: string)
    | BulletList(items: seq<string>)
    | NumberedList(items: seq<string>)
    | Plain(text: string)

  /** `startsWith('•') || includes('\n•')`. */
  predicate HasBullets(p: string) {
    StartsWith(p, [Bullet]) || Contains(p, ['\n', Bullet])
  }

  /** Some line of `p` starts with a bullet. */
  predicate SomeLineBulleted(p: string) {
    exists i :: 0 <= i < |Split(p, "\n")| && StartsWith(Split(p, "\n")[i], [Bullet])
  }

  /** The bullet test is a test on lines: it holds exactly when some line of
      the paragraph starts with `•`. */
  lemma {:induction false} HasBulletsIffLine(p: string)
    ensures HasBullets(p) <==> SomeLineBulleted(p)
    decreases |p|
  {
    if !Contains(p, "\n") {
      NoBreakNoBullet(p);
      SplitAtFirst(p, "\n");
    } else {
      var k := FirstLine(p);
      var rest := p[k + 1..];
      HasBulletsIffLine(rest);
      BulletAfterBreak(p, k);
      SomeLineBulletedCons(p, k);
    }
  }

  /** Without a line break there is no `\n•`. */
  lemma {:induction false} NoBreakNoBullet(p: string)
    requires !Contains(p, "\n")
    ensures !Contains(p, ['\n', Bullet])
  {
    forall i | 0 <= i <= |p| ensures !OccursAt(p, ['\n', Bullet], i) {
      if i + 2 <= |p| {
        assert !OccursAt(p, "\n", i);
        assert p[i..i + 1] == [p[i]];
        assert p[i..i + 2][0] == p[i];
      }
    }
  }

  /** Where the first line ends: at the first line break, and the other lines
      are the lines of the text after it. */
  lemma {:induction false} FirstLine(p: string) returns (k: nat)
    requires Contains(p, "\n")
    ensures k == |Split(p, "\n")[0]| && k < |p| && p[k] == '\n'
    ensures forall i :: 0 <= i < k ==> p[i] != '\n'
    ensures Split(p, "\n")[1..] == Split(p[k + 1..], "\n")
    ensures StartsWith(p, [Bullet]) <==> StartsWith(Split(p, "\n")[0], [Bullet])
  {
    var lines := Split(p, "\n");
    SplitAtFirst(p, "\n");
    k := |lines[0]|;
    assert p[..k + 1] == lines[0] + "\n";
    assert p[k] == '\n';
    forall i | 0 <= i < k ensures p[i] != '\n' {
      assert !OccursAt(p, "\n", i);
      assert p[i..i + 1] == [p[i]];
    }
    if k > 0 {
      assert p[0] == lines[0][0];
    }
  }

  /** Some line starts with a bullet iff the first does or one of the rest does. */
  lemma {:induction false} SomeLineBulletedCons(p: string, k: nat)
    requires |Split(p, "\n")| >= 2 && k < |p|
    requires Split(p, "\n")[1..] == Split(p[k + 1..], "\n")
    ensures SomeLineBulleted(p) <==> StartsWith(Split(p, "\n")[0], [Bullet]) || SomeLineBulleted(p[k + 1..])
  {
    var lines := Split(p, "\n");
    var more := Split(p[k + 1..], "\n");
    if SomeLineBulleted(p[k + 1..]) {
      var i :| 0 <= i < |more| && StartsWith(more[i], [Bullet]);
      assert lines[i + 1] == more[i];
    }
    if SomeLineBulleted(p) {
      var i :| 0 <= i < |lines| && StartsWith(lines[i], [Bullet]);
      if i > 0 {
        assert more[i - 1] == lines[i];
      }
    }
  }

  /** Around the first line break at `k`, a `\n•` is either that break
      followed by a bullet or a `\n•` after it. */
  lemma {:induction false} BulletAfterBreak(p: string, k: nat)
    requires k < |p| && p[k] == '\n' && forall i :: 0 <= i < k ==> p[i] != '\n'
    ensures Contains(p, ['\n', Bullet]) <==> StartsWith(p[k + 1..], [Bullet]) || Contains(p[k + 1..], ['\n', Bullet])
  {
    var nb := ['\n', Bullet];
    var rest := p[k + 1..];
    if Contains(p, nb) {
      var i :| 0 <= i <= |p| && OccursAt(p, nb, i);
      BreakBulletAt(p, k, i);
    }
    if StartsWith(rest, [Bullet]) {
      assert p[k + 1] == rest[0];
      assert p[k..k + 2] == nb;
      assert OccursAt(p, nb, k);
    }
    if Contains(rest, nb) {
      var j :| 0 <= j <= |rest| && OccursAt(rest, nb, j);
      assert p[j + k + 1..j + k + 3] == rest[j..j + 2];
      assert OccursAt(p, nb, j + k + 1);
    }
  }

  /** A `\n•` at `i` is at or after the first line break `k`: at it, the
      text after the break starts with `•`; after it, it is one in that text. */
  lemma {:induction false} BreakBulletAt(p: string, k: nat, i: nat)
    requires k < |p| && p[k] == '\n' && forall j :: 0 <= j < k ==> p[j] != '\n'
    requires OccursAt(p, ['\n', Bullet], i)
    ensures StartsWith(p[k + 1..], [Bullet]) || Contains(p[k + 1..], ['\n', Bullet])
  {
    var rest := p[k + 1..];
    assert p[i] == p[i..i + 2][0] == '\n';
    assert p[i + 1] == p[i..i + 2][1] == Bullet;
    if i == k {
      assert rest[..1] == [Bullet];
    } else {
      assert rest[i - k - 1..i - k + 1] == p[i..i + 2];
      assert OccursAt(rest, ['\n', Bullet], i - k - 1);
    }
  }

  /** `item.replace('•', '').trim()`. */
  function BulletItem(line: string): (item: string)
    ensures Trimmed(item)
  {
    Trim(ReplaceFirst(line, Bullet))
  }

  /** `item.replace(/^\d+\.\s*\/, '').trim()`. */
  function NumberedItem(line: string): (item: string)
    ensures Trimmed(item)
  {
    Trim(DropNumber(line))
  }

  /** The items of a bullet list: one per line, the first `•` removed, trimmed. */
  function BulletItems(p: string): (r: seq<string>)
    ensures |r| == |Split(p, "\n")|
    ensures forall i :: 0 <= i < |r| ==> r[i] == BulletItem(Split(p, "\n")[i])
  {
    var lines := Split(p, "\n");
    seq(|lines|, i requires 0 <= i < |lines| => BulletItem(lines[i]))
  }

  /** The items of a numbered list: one per line, the leading number removed, trimmed. */
  function NumberedItems(p: string): (r: seq<string>)
    ensures |r| == |Split(p, "\n")|
    ensures forall i :: 0 <= i < |r| ==> r[i] == NumberedItem(Split(p, "\n")[i])
  {
    var lines := Split(p, "\n");
    seq(|lines|, i requires 0 <= i < |lines| => NumberedItem(lines[i]))
  }

  /** Text that is already trimmed is left alone by `trim`. */
  lemma {:induction false} TrimTrimmed(t: string)
    requires Trimmed(t)
    ensures Trim(t) == t
  {
    assert TrimStart(t) == t;
  }

  /** One space before trimmed text is dropped by `trimStart`. */
  lemma {:induction false} TrimStartSpace(t: string)
    requires Trimmed(t)
    ensures TrimStart(" " + t) == t
  {
    assert (" " + t)[1..] == t;
  }

  /** `trim` drops one space before trimmed text. */
  lemma {:induction false} TrimSpaced(t: string)
    requires Trimmed(t)
    ensures Trim(" " + t) == t
  {
    TrimStartSpace(t);
    assert TrimEnd(t) == t;
  }

  /** A line `• text` becomes the item `text`. */
  lemma {:induction false} BulletLineItem(text: string)
    requires Trimmed(text)
    ensures BulletItem([Bullet, ' '] + text) == text
  {
    var line := [Bullet, ' '] + text;
    assert ReplaceFirst(line, Bullet) == " " + text by {
      assert IndexOfChar(line, Bullet) == Some(0);
      assert line[1..] == " " + text;
    }
    TrimSpaced(text);
  }

  /** A line `n. text` becomes the item `text`, whatever the number. */
  lemma {:induction false} NumberedLineItem(n: nat, text: string, line: string)
    requires Trimmed(text) && line == NatToString(n) + ". " + text
    ensures NumberedItem(line) == text
  {
    DropNumberOfLine(n, text);
    TrimTrimmed(text);
  }

  /** The number, its dot and the space after them are what `DropNumber` removes. */
  lemma {:induction false} DropNumberOfLine(n: nat, text: string)
    requires Trimmed(text)
    ensures DropNumber(NatToString(n) + ". " + text) == text
  {
    DropNumberOfDigits(NatToString(n), text);
  }

  /** Whatever the digits, `DropNumber` removes them, the dot and one space. */
  lemma {:induction false} DropNumberOfDigits(d: string, text: string)
    requires |d| >= 1 && forall i :: 0 <= i < |d| ==> IsDigit(d[i])
    requires Trimmed(text)
    ensures DropNumber(d + ". " + text) == text
  {
    var line := d + ". " + text;
    LeadingDigitsOf(d, ". " + text);
    assert line == d + (". " + text);
    assert line[|d| + 1..] == " " + text;
    DropNumberAt(line, |d|);
    TrimStartSpace(text);
  }

  /** With the digits counted and a dot after them, `DropNumber` trims what follows the dot. */
  lemma {:induction false} DropNumberAt(line: string, k: nat)
    requires 1 <= k < |line| && LeadingDigits(line) == k && line[k] == '.'
    ensures DropNumber(line) == TrimStart(line[k + 1..])
  {
    assert IsNumbered(line);
    assert DropNumber(line) == TrimStart(line[LeadingDigits(line) + 1..]);
  }

  /** A text without the character has no occurrence of it as a separator. */
  lemma {:induction false} NoCharNoOccurrence(s: string, c: char)
    requires c !in s
    ensures !Contains(s, [c])
  {
    forall i | 0 <= i <= |s| ensures !OccursAt(s, [c], i) {
      if i + 1 <= |s| {
        assert s[i..i + 1] == [s[i]];
      }
    }
  }

  /** The lines of a bullet list become its items: a paragraph made of lines
      `• text` lists exactly the texts, in order. */
  lemma {:induction false} BulletListOfLines(texts: seq<string>, lines: seq<string>)
    requires |texts| >= 1 && |lines| == |texts|
    requires forall i :: 0 <= i < |texts| ==> Trimmed(texts[i]) && '\n' !in texts[i]
    requires forall i :: 0 <= i < |texts| ==> lines[i] == [Bullet, ' '] + texts[i]
    ensures BulletItems(Join(lines, "\n")) == texts
  {
    forall l | l in lines ensures !Contains(l, "\n") {
      var i :| 0 <= i < |lines| && lines[i] == l;
      assert '\n' !in l;
      NoCharNoOccurrence(l, '\n');
    }
    SplitJoin(lines, "\n");
    var r := BulletItems(Join(lines, "\n"));
    forall i | 0 <= i < |texts| ensures r[i] == texts[i] {
      BulletLineItem(texts[i]);
    }
  }

  /** A numbered line holds no line break when its text holds none. */
  lemma {:induction false} NumberedLineIsOneLine(n: nat, text: string)
    requires '\n' !in text
    ensures !Contains(NatToString(n) + ". " + text, "\n")
  {
    var d := NatToString(n);
    assert '\n' !in d by {
      forall j | 0 <= j < |d| ensures d[j] != '\n' {
        assert IsDigit(d[j]);
      }
    }
    assert '\n' !in d + ". " + text;
    NoCharNoOccurrence(d + ". " + text, '\n');
  }

  /** The lines of a numbered list become its items: a paragraph made of lines
      `1. text`, `2. text`, ... lists exactly the texts, in order. */
  lemma {:induction false} NumberedListOfLines(texts: seq<string>, lines: seq<string>)
    requires |texts| >= 1 && |lines| == |texts|
    requires forall i :: 0 <= i < |texts| ==> Trimmed(texts[i]) && '\n' !in texts[i]
    requires forall i :: 0 <= i < |texts| ==> lines[i] == NatToString(i + 1) + ". " + texts[i]
    ensures NumberedItems(Join(lines, "\n")) == texts
  {
    NumberedLinesAreLines(texts, lines);
    forall i | 0 <= i < |texts| ensures NumberedItem(lines[i]) == texts[i] {
      NumberedLineItem(i + 1, texts[i], lines[i]);
    }
    NumberedItemsOfLines(texts, lines);
  }

  /** No numbered line holds a line break. */
  lemma {:induction false} NumberedLinesAreLines(texts: seq<string>, lines: seq<string>)
    requires |lines| == |texts|
    requires forall i :: 0 <= i < |texts| ==> '\n' !in texts[i]
    requires forall i :: 0 <= i < |texts| ==> lines[i] == NatToString(i + 1) + ". " + texts[i]
    ensures forall l :: l in lines ==> !Contains(l, "\n")
  {
    forall l | l in lines ensures !Contains(l, "\n") {
      var i :| 0 <= i < |lines| && lines[i] == l;
      NumberedLineIsOneLine(i + 1, texts[i]);
    }
  }

  /** Lines joined by line breaks are split back apart, each line giving its item. */
  lemma {:induction false} NumberedItemsOfLines(texts: seq<string>, lines: seq<string>)
    requires |lines| >= 1 && forall l :: l in lines ==> !Contains(l, "\n")
    requires |texts| == |lines| && forall i :: 0 <= i < |lines| ==> NumberedItem(lines[i]) == texts[i]
    ensures NumberedItems(Join(lines, "\n")) == texts
  {
    SplitJoin(lines, "\n");
    var r := NumberedItems(Join(lines, "\n"));
    assert |r| == |texts|;
    forall i | 0 <= i < |texts| ensures r[i] == texts[i] {
      assert r[i] == NumberedItem(lines[i]);
    }
  }

  /** Digits followed by a non-digit: the scan stops right after the digits. */
  lemma {:induction false} LeadingDigitsOf(d: string, rest: string)
    requires forall i :: 0 <= i < |d| ==> IsDigit(d[i])
    requires rest != [] && !IsDigit(rest[0])
    ensures LeadingDigits(d + rest) == |d|
    decreases |d|
  {
    if d == [] {
      assert d + rest == rest;
    } else {
      assert (d + rest)[1..] == d[1..] + rest;
      LeadingDigitsOf(d[1..], rest);
    }
  }

  /** The five branches of the renderer, checked in order, the first match winning:
      - a paragraph that starts and ends with `**` is a heading with every `**` removed;
      - one that only starts with `**` is a sub-heading: the text up to the
        next `**` is the title, and everything after it is the rest, with its
        `**` removed;
      - one that starts with `•` or has a line starting with `•` is a bullet
        list, one item per line, with the first `•` removed and the item trimmed;
      - one that starts with digits and a dot is a numbered list, one item per
        line, with the leading number removed and the item trimmed;
      - anything else is a plain paragraph. */
  function Classify(p: string): (b: Block)
    ensures b.Heading? <==> StartsWith(p, Bold) && EndsWith(p, Bold)
    ensures b.SubHeading? <==> StartsWith(p, Bold) && !EndsWith(p, Bold)
    ensures b.BulletList? <==> !StartsWith(p, Bold) && HasBullets(p)
    ensures b.NumberedList? <==> !StartsWith(p, Bold) && !HasBullets(p) && IsNumbered(p)
    ensures b.BulletList? ==> b.items == BulletItems(p)
    ensures b.NumberedList? ==> b.items == NumberedItems(p)
    ensures b.Plain? ==> b.text == p
    ensures b.Heading? ==> b.text == Join(Split(p, Bold), "")
    ensures b.SubHeading? ==> |Split(p, Bold)| >= 2 && b.title == Split(p, Bold)[1]
                              && b.rest == Join(Split(p, Bold)[2..], "")
  {
    if StartsWith(p, Bold) && EndsWith(p, Bold) then
      Heading(Join(Split(p, Bold), ""))
    else if StartsWith(p, Bold) then
      var parts := Split(p, Bold);
      SplitLeadingSeparator(p, Bold);
      SubHeading(parts[1], Join(parts[2..], ""))
    else if HasBullets(p) then
      BulletList(BulletItems(p))
    else if IsNumbered(p) then
      NumberedList(NumberedItems(p))
    else
      Plain(p)
  }

  /** Which kind of block each paragraph becomes, stated as the conditions
      of the renderer's branches: the kinds partition all paragraphs, and a
      paragraph that is bold and has bullets is never a list. */
  lemma ClassifyKinds(p: string)
    ensures Classify(p).Heading? <==> StartsWith(p, Bold) && EndsWith(p, Bold)
    ensures Classify(p).SubHeading? <==> StartsWith(p, Bold) && !EndsWith(p, Bold)
    ensures Classify(p).BulletList? <==> !StartsWith(p, Bold) && HasBullets(p)
    ensures Classify(p).NumberedList? <==> !StartsWith(p, Bold) && !HasBullets(p) && MatchesNumberPattern(p)
    ensures Classify(p).Plain? <==> !StartsWith(p, Bold) && !HasBullets(p) && !MatchesNumberPattern(p)
  {
    NumberedIffPattern(p);
  }

  /** A paragraph `**text**` is a heading showing `text`, when `text` holds
      no `**` and does not end with `*` (which would move the closing cut). */
  lemma {:induction false} HeadingText(t: string)
    requires !Contains(t, Bold) && (t == [] || t[|t| - 1] != '*')
    ensures Classify(Bold + (t + Bold)).Heading?
    ensures Classify(Bold + (t + Bold)).text == t
  {
    var p := Bold + (t + Bold);
    assert StartsWith(p, Bold) && EndsWith(p, Bold);
    HeadingPieces(t);
    JoinEmptySeparator3("", t, "");
    assert "" + t + "" == t;
  }

  /** `**text**` splits on `**` into an empty piece, `text` and an empty piece. */
  lemma {:induction false} HeadingPieces(t: string)
    requires !Contains(t, Bold) && (t == [] || t[|t| - 1] != '*')
    ensures Split(Bold + (t + Bold), Bold) == ["", t, ""]
  {
    assert Split("", Bold) == [""] by {
      assert !Contains("", Bold);
      SplitAtFirst("", Bold);
    }
    assert t + Bold + "" == t + Bold;
    SubHeadingPieces(t, "");
    assert ["", t] + [""] == ["", t, ""];
  }

  /** A leading `**` gives an empty first piece, then the pieces of the rest. */
  lemma {:induction false} SplitLeadingBold(q: string)
    ensures Split(Bold + q, Bold) == [""] + Split(q, Bold)
  {
    assert !Contains("", Bold);
    SplitAfterBoldPiece("", q);
    assert "" + Bold + q == Bold + q;
  }

  /** Joining three pieces with the empty string concatenates them. */
  lemma JoinEmptySeparator3(x: string, y: string, z: string)
    ensures Join([x, y, z], "") == x + y + z
  {
    assert [x, y, z][1..] == [y, z];
    assert [y, z][1..] == [z];
    assert Join([y, z], "") == y + "" + z == y + z;
    assert Join([x, y, z], "") == x + "" + (y + z);
  }

  /** A paragraph `**title**rest` that does not end in `*` is a sub-heading
      with that title, followed by `rest` with its `**` removed. */
  lemma {:induction false} SubHeadingText(title: string, rest: string)
    requires !Contains(title, Bold) && (title == [] || title[|title| - 1] != '*')
    requires rest != [] && rest[|rest| - 1] != '*'
    ensures Classify(Bold + (title + Bold + rest)).SubHeading?
    ensures Classify(Bold + (title + Bold + rest)).title == title
    ensures Classify(Bold + (title + Bold + rest)).rest == Join(Split(rest, Bold), "")
  {
    var p := Bold + (title + Bold + rest);
    assert StartsWith(p, Bold);
    assert !EndsWith(p, Bold) by {
      assert p[|p| - 1] == rest[|rest| - 1];
    }
    SubHeadingPieces(title, rest);
    assert Split(p, Bold)[2..] == Split(rest, Bold);
  }

  /** `**title**rest` splits on `**` into an empty piece, `title` and the pieces of `rest`. */
  lemma {:induction false} SubHeadingPieces(title: string, rest: string)
    requires !Contains(title, Bold) && (title == [] || title[|title| - 1] != '*')
    ensures Split(Bold + (title + Bold + rest), Bold) == ["", title] + Split(rest, Bold)
  {
    var q := title + Bold + rest;
    var pieces := Split(rest, Bold);
    assert Split(q, Bold) == [title] + pieces by {
      SplitAfterBoldPiece(title, rest);
    }
    assert Split(Bold + q, Bold) == [""] + Split(q, Bold) by {
      SplitLeadingBold(q);
    }
    assert [""] + ([title] + pieces) == ["", title] + pieces;
  }

  /** A sub-heading's title is the text between the opening `**` and the
      next one: it holds no `**`, the paragraph starts with it, and after it
      comes either the end of the paragraph or the next `**`. */
  lemma {:induction false} SubHeadingTitle(p: string)
    requires Classify(p).SubHeading?
    ensures !Contains(Classify(p).title, Bold) && StartsWith(p, Bold + Classify(p).title)
    ensures var after := p[|Bold| + |Classify(p).title|..]; after == [] || StartsWith(after, Bold)
  {
    var tail := p[|Bold|..];
    assert p == Bold + tail;
    SplitLeadingBold(tail);
    var title := Split(tail, Bold)[0];
    assert Classify(p).title == title;
    assert title in Split(tail, Bold);
    FirstPieceEnds(tail, Bold);
    assert p[|Bold| + |title|..] == tail[|title|..];
    assert (Bold + title) == p[..|Bold| + |title|];
  }

  /** The first piece of a split is where the text starts, and after it comes
      either the end of the text or the separator. */
  lemma {:induction false} FirstPieceEnds(s: string, sep: string)
    requires |sep| > 0
    ensures var first := Split(s, sep)[0];
            && StartsWith(s, first)
            && (s[|first|..] == [] || StartsWith(s[|first|..], sep))
  {
    var first := Split(s, sep)[0];
    SplitAtFirst(s, sep);
    if Contains(s, sep) {
      assert StartsWith(s, first + sep);
      assert s[..|first|] == (first + sep)[..|first|];
      assert s[|first|..][..|sep|] == (first + sep)[|first|..];
    }
  }

  /** A separator after a piece that holds no `**` and does not end in `*`
      is where `split('**')` cuts first. */
  lemma {:induction false} SplitAfterBoldPiece(a: string, b: string)
    requires !Contains(a, Bold) && (a == [] || a[|a| - 1] != '*')
    ensures Split(a + Bold + b, Bold) == [a] + Split(b, Bold)
  {
    var s := a + Bold + b;
    assert s[|a|..|a| + 2] == Bold;
    assert OccursAt(s, Bold, |a|);
    assert forall i :: 0 <= i < |a| ==> !OccursAt(s, Bold, i) by {
      forall i | 0 <= i < |a| ensures !OccursAt(s, Bold, i) {
        if i + 2 <= |a| {
          assert s[i..i + 2] == a[i..i + 2];
          assert !OccursAt(a, Bold, i);
        } else if i + 2 <= |s| {
          assert s[i..i + 2][0] == s[i] == a[|a| - 1] != '*';
        }
      }
    }
    var r := Split(s, Bold);
    SplitAtFirst(s, Bold);
    assert s[|r[0]|..|r[0]| + 2] == (r[0] + Bold)[|r[0]|..];
    assert OccursAt(s, Bold, |r[0]|);
    assert |r[0]| == |a|;
    assert r[0] == s[..|a|] == a;
    assert s[|a| + 2..] == b;
    assert r == [r[0]] + r[1..];
  }

  lemma LeadingPiece(parts: seq<string>, sep: string)
    requires |parts| >= 2 && parts[0] == ""
    ensures StartsWith(Join(parts, sep), sep + parts[1])
  {
    var tail := parts[1..];
    var after := if |tail| == 1 then "" else sep + Join(tail[1..], sep);
    assert Join(tail, sep) == parts[1] + after;
    assert Join(parts, sep) == (sep + parts[1]) + after;
  }

  /** The rendered body: one block per paragraph, in order. */
  function Layout(body: string): (r: seq<Block>)
    ensures |r| == |Split(body, ParagraphBreak)|
    ensures forall i :: 0 <= i < |r| ==> r[i] == Classify(Split(body, ParagraphBreak)[i])
  {
    var ps := Split(body, ParagraphBreak);
    seq(|ps|, i requires 0 <= i < |ps| => Classify(ps[i]))
  }

  // ---------------------------------------------------------------------------
  // Numbers in ids
  // ---------------------------------------------------------------------------

  function DigitChar(d: nat): (c: char)
    requires d < 10
    ensures IsDigit(c)
  {
    ('0' as int + d) as char
  }

  /** `n.toString()` for a natural number. */
  function NatToString(n: nat): (r: string)
    ensures |r| >= 1
    ensures forall i :: 0 <= i < |r| ==> IsDigit(r[i])
    decreases n
  {
    if n < 10 then [DigitChar(n)] else NatToString(n / 10) + [DigitChar(n % 10)]
  }

  /** Reads a string of decimal digits back as a number. */
  function ParseNat(s: string): nat
    decreases |s|
  {
    if s == [] then 0
    else if IsDigit(s[|s| - 1]) then 10 * ParseNat(s[..|s| - 1]) + (s[|s| - 1] as int - '0' as int)
    else 10 * ParseNat(s[..|s| - 1])
  }

  /** Writing a number and reading it back gives the number. */
  lemma {:induction false} ParseNatToString(n: nat)
    ensures ParseNat(NatToString(n)) == n
    decreases n
  {
    if n >= 10 {
      var s := NatToString(n);
      assert s[..|s| - 1] == NatToString(n / 10);
      ParseNatToString(n / 10);
    }
  }

  /** Different numbers are written differently, so ids built from them differ. */
  lemma NatToStringInjective(m: nat, n: nat)
    requires m != n
    ensures NatToString(m) != NatToString(n)
  {
    ParseNatToString(m);
    ParseNatToString(n);
  }
}
