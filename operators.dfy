/**
 * The operator rewrite of the list-query middleware: in the serialized filter,
 * every whole-word `gt`, `gte`, `lt`, `lte` or `in` gets a `$` in front, which
 * turns the client's operator names into the storage engine's operators.
 *
 * The rewrite is the global regular-expression replacement
 * `/\b(gt|gte|lt|lte|in)\b/g`, with `$` + the match as the replacement. It is
 * modelled as the scan the regular-expression engine performs: at each
 * position the alternatives are tried in their written order, each with a word
 * boundary on both sides; after a match the scan resumes behind it, otherwise
 * one character further. Word characters are `[A-Za-z0-9_]`.
 */
module Operators {

  predicate IsWordChar(c: char)
  {
    ('a' <= c <= 'z') || ('A' <= c <= 'Z') || ('0' <= c <= '9') || c == '_'
  }

  /** The alternatives of the pattern, in the order it lists them. */
  const Alternatives: seq<string> := ["gt", "gte", "lt", "lte", "in"]

  /** Length of the run of word characters `s` starts with. */
  function WordRun(s: string): (n: nat)
    ensures n <= |s|
    ensures forall i :: 0 <= i < n ==> IsWordChar(s[i])
    ensures n == |s| || !IsWordChar(s[n])
  {
    if s != [] && IsWordChar(s[0]) then 1 + WordRun(s[1..]) else 0
  }

  /** `\b` between the character before `s` (a word character iff
      `prevWord`) and the first character of `s` (none at the end). */
  predicate BoundaryAtStart(s: string, prevWord: bool)
  {
    prevWord != (s != [] && IsWordChar(s[0]))
  }

  /** `\b` after the first `n` characters of `s`. */
  predicate BoundaryAfter(s: string, n: nat)
    requires 0 < n <= |s|
  {
    IsWordChar(s[n - 1]) != (n < |s| && IsWordChar(s[n]))
  }

  /** The first alternative of `alts` that the text `s` starts with and that
      ends at a word boundary; 0 when there is none. */
  function FirstAlternative(s: string, alts: seq<string>): (n: nat)
    requires forall i :: 0 <= i < |alts| ==> |alts[i]| > 0
    ensures n <= |s|
  {
    if alts == [] then 0
    else if |alts[0]| <= |s| && s[..|alts[0]|] == alts[0] && BoundaryAfter(s, |alts[0]|) then |alts[0]|
    else FirstAlternative(s, alts[1..])
  }

  /** Length of the match of the pattern at the start of `s`, 0 for none. */
  function MatchAt(s: string, prevWord: bool): (n: nat)
    ensures n <= |s|
  {
    if BoundaryAtStart(s, prevWord) then FirstAlternative(s, Alternatives) else 0
  }

  /** The scan, from a position whose preceding character is a word
      character iff `prevWord`. */
  function RewriteFrom(s: string, prevWord: bool): string
    decreases |s|
  {
    if s == [] then []
    else
      var n := MatchAt(s, prevWord);
      if n > 0 then ['$'] + s[..n] + RewriteFrom(s[n..], true)
      else [s[0]] + RewriteFrom(s[1..], IsWordChar(s[0]))
  }

  /** `s.replace(/\b(gt|gte|lt|lte|in)\b/g, m => '$' + m)`: a `$` is
      inserted before each whole-word operator name and nothing else changes
      (the reference definition `Marked` below); the output is longer by the
      number of names rewritten; deleting the inserted `$` characters gives
      back the input, so no two inputs rewrite to the same text. */
  function Rewrite(s: string): (r: string)
    ensures r == Marked(s, |s|)
    ensures |r| == |s| + TokenCount(s, |s|)
    ensures Restore(r) == s
  {
    ScanMatchesMarked(s, |s|);
    assert s[|s|..] == [];
    MarkedLength(s, |s|);
    RestoreScan(s, false);
    RewriteFrom(s, false)
  }

  // ----- The reference definition: whole-word tokens -----

  /** `s` starts with a whole word that is one of the operator names. */
  predicate StartsWithToken(s: string)
  {
    s[..WordRun(s)] in Alternatives
  }

  /** Position `i` of `s` starts a whole-word operator name: the character
      before it (if any) is not a word character and the word starting there
      is exactly `gt`, `gte`, `lt`, `lte` or `in`. */
  predicate WholeWordAt(s: string, i: nat)
    requires i < |s|
  {
    (i == 0 || !IsWordChar(s[i - 1])) && StartsWithToken(s[i..])
  }

  /** `s` with a `$` inserted before each of its first `k` positions that
      starts a whole-word operator name. */
  function Marked(s: string, k: nat): string
    requires k <= |s|
  {
    if k == 0 then [] else Marked(s, k - 1) + Piece(s, k - 1)
  }

  /** What the reference definition emits for position `i`. */
  function Piece(s: string, i: nat): string
    requires i < |s|
  {
    (if WholeWordAt(s, i) then "$" else "") + [s[i]]
  }

  /** Number of whole-word operator names among the first `k` positions. */
  function TokenCount(s: string, k: nat): nat
    requires k <= |s|
  {
    if k == 0 then 0 else TokenCount(s, k - 1) + (if WholeWordAt(s, k - 1) then 1 else 0)
  }

  /** Deletes every `$` that is immediately followed by a whole-word operator
      name, i.e. exactly the `$` characters the rewrite inserts. */
  function Restore(r: string): string
  {
    if r == [] then []
    else if r[0] == '$' && StartsWithToken(r[1..]) then Restore(r[1..])
    else [r[0]] + Restore(r[1..])
  }

  // ----- The regular expression matches whole words only -----

  lemma {:induction false} WordRunOfWordPrefix(s: string, k: nat)
    requires k <= |s|
    requires forall i :: 0 <= i < k ==> IsWordChar(s[i])
    requires k == |s| || !IsWordChar(s[k])
    ensures WordRun(s) == k
    decreases k
  {
    if k > 0 {
      WordRunOfWordPrefix(s[1..], k - 1);
    }
  }

  /** Whatever order the alternatives are tried in, the one that matches is
      the whole leading word, so `gte` is never matched as `gt` + `e` and
      nothing inside a longer word matches. */
  lemma {:induction false} FirstAlternativeIsWholeWord(s: string, alts: seq<string>)
    requires forall i :: 0 <= i < |alts| ==> |alts[i]| > 0
    requires forall i :: 0 <= i < |alts| ==> forall j :: 0 <= j < |alts[i]| ==> IsWordChar(alts[i][j])
    requires s != [] && IsWordChar(s[0])
    ensures FirstAlternative(s, alts) == if s[..WordRun(s)] in alts then WordRun(s) else 0
    decreases |alts|
  {
    if alts != [] {
      var a := alts[0];
      var w := WordRun(s);
      if |a| <= |s| && s[..|a|] == a && BoundaryAfter(s, |a|) {
        forall i | 0 <= i < |a| ensures IsWordChar(s[i]) {
          assert s[i] == a[i];
        }
        WordRunOfWordPrefix(s, |a|);
      } else {
        FirstAlternativeIsWholeWord(s, alts[1..]);
        WholeWordMatches(s, a);
        assert s[..w] in alts <==> s[..w] == a || s[..w] in alts[1..] by {
          assert alts == [a] + alts[1..];
        }
      }
    }
  }

  /** The leading word of `s` is an alternative that matches at the start
      of `s` and ends at a word boundary. */
  lemma WholeWordMatches(s: string, a: string)
    requires |a| > 0
    ensures s[..WordRun(s)] == a ==> |a| <= |s| && s[..|a|] == a && BoundaryAfter(s, |a|)
  {
  }

  /** What the regular-expression engine finds at one position: a match, of
      the whole leading word, exactly when no word character precedes and
      that word is one of the operator names. */
  lemma MatchAtIsWholeWord(s: string, prevWord: bool)
    ensures MatchAt(s, prevWord) == if !prevWord && StartsWithToken(s) then WordRun(s) else 0
  {
    var w := WordRun(s);
    if s != [] && IsWordChar(s[0]) {
      if !prevWord {
        FirstAlternativeIsWholeWord(s, Alternatives);
      }
    } else {
      assert w == 0 && s[..w] == [];
      if BoundaryAtStart(s, prevWord) {
        NoAlternativeWithoutWordStart(s, Alternatives);
      }
    }
  }

  lemma {:induction false} NoAlternativeWithoutWordStart(s: string, alts: seq<string>)
    requires forall i :: 0 <= i < |alts| ==> |alts[i]| > 0
    requires forall i :: 0 <= i < |alts| ==> IsWordChar(alts[i][0])
    requires !(s != [] && IsWordChar(s[0]))
    ensures FirstAlternative(s, alts) == 0
    decreases |alts|
  {
    if alts != [] {
      if |alts[0]| <= |s| {
        assert s[..|alts[0]|][0] == s[0];
      }
      NoAlternativeWithoutWordStart(s, alts[1..]);
    }
  }

  // ----- The scan against the reference definition -----

  /** After a word character the scan copies the rest of the word and the
      character that ends it unchanged. */
  lemma {:induction false} CopiesWordAfterWordChar(y: string, j: nat)
    requires j <= WordRun(y)
    ensures RewriteFrom(y, true) == y[..j] + RewriteFrom(y[j..], true)
    decreases j
  {
    if j > 0 {
      MatchAtIsWholeWord(y, true);
      UnfoldElsewhere(y, true);
      CopiesWordAfterWordChar(y[1..], j - 1);
      FirstThenRest(y, j);
      Regroup5(RewriteFrom(y, true), y[0], y[1..][..j - 1], RewriteFrom(y[j..], true),
               RewriteFrom(y[1..], true), y[..j]);
    }
  }

  /** One step of the scan where the pattern does not match. */
  lemma UnfoldElsewhere(x: string, p: bool)
    requires x != [] && MatchAt(x, p) == 0
    ensures RewriteFrom(x, p) == [x[0]] + RewriteFrom(x[1..], IsWordChar(x[0]))
  {
  }

  lemma FirstThenRest(y: string, j: nat)
    requires 0 < j <= |y|
    ensures y[1..][j - 1..] == y[j..]
    ensures [y[0]] + y[1..][..j - 1] == y[..j]
  {
  }

  lemma Regroup5(whole: string, c: char, mid: string, rest: string, tail: string, prefix: string)
    requires whole == [c] + tail && tail == mid + rest && prefix == [c] + mid
    ensures whole == prefix + rest
  {
  }

  function PrevWord(s: string, k: nat): bool
    requires k <= |s|
  {
    k > 0 && IsWordChar(s[k - 1])
  }

  /** At a position that starts a whole-word operator name the scan emits
      `$`, the name, and then continues as it would from the next position. */
  lemma ScanStepAtToken(x: string)
    requires x != [] && StartsWithToken(x)
    ensures RewriteFrom(x, false) == ['$'] + [x[0]] + RewriteFrom(x[1..], true)
  {
    var n := WordRun(x);
    TokenIsWord(x);
    MatchAtIsWholeWord(x, false);
    UnfoldAtMatch(x, false);
    RestOfWord(x, n);
    Regroup4(RewriteFrom(x, false), x[0], x[1..][..n - 1], RewriteFrom(x[n..], true), RewriteFrom(x[1..], true));
  }

  /** One step of the scan where the pattern matches. */
  lemma UnfoldAtMatch(x: string, p: bool)
    requires MatchAt(x, p) > 0
    ensures RewriteFrom(x, p) == ['$'] + x[..MatchAt(x, p)] + RewriteFrom(x[MatchAt(x, p)..], true)
  {
  }

  /** Inside a word the scan copies the rest of the word. */
  lemma RestOfWord(x: string, n: nat)
    requires 0 < n <= WordRun(x)
    ensures RewriteFrom(x[1..], true) == x[1..][..n - 1] + RewriteFrom(x[n..], true)
    ensures x[..n] == [x[0]] + x[1..][..n - 1]
  {
    WordRunTail(x);
    CopiesWordAfterWordChar(x[1..], n - 1);
    FirstThenRest(x, n);
  }

  lemma WordRunTail(x: string)
    requires x != [] && IsWordChar(x[0])
    ensures WordRun(x[1..]) == WordRun(x) - 1
  {
  }

  lemma Regroup4(whole: string, c: char, mid: string, rest: string, tail: string)
    requires whole == ['$'] + ([c] + mid) + rest
    requires tail == mid + rest
    ensures whole == ['$'] + [c] + tail
  {
  }

  /** An operator name is a non-empty word. */
  lemma TokenIsWord(x: string)
    requires StartsWithToken(x)
    ensures 0 < WordRun(x) && IsWordChar(x[0])
    ensures WordRun(x[1..]) == WordRun(x) - 1
  {
    assert |x[..WordRun(x)]| == WordRun(x);
  }

  /** Anywhere else the scan copies one character. */
  lemma ScanStepElsewhere(x: string, p: bool)
    requires x != [] && (p || !StartsWithToken(x))
    ensures RewriteFrom(x, p) == [x[0]] + RewriteFrom(x[1..], IsWordChar(x[0]))
  {
    MatchAtIsWholeWord(x, p);
  }

  /** One position of the scan: what the scan emits from position `k` on is
      the reference definition's piece for position `k` followed by what it
      emits from `k + 1` on. This holds at every position, also inside a
      matched word. */
  lemma ScanStep(s: string, k: nat)
    requires k < |s|
    ensures RewriteFrom(s[k..], PrevWord(s, k)) == Piece(s, k) + RewriteFrom(s[k + 1..], PrevWord(s, k + 1))
  {
    if WholeWordAt(s, k) {
      ScanStepToken(s, k);
    } else {
      ScanStepOther(s, k);
    }
  }

  lemma ScanStepToken(s: string, k: nat)
    requires k < |s| && WholeWordAt(s, k)
    ensures RewriteFrom(s[k..], false) == ['$'] + [s[k]] + RewriteFrom(s[k + 1..], true)
    ensures !PrevWord(s, k) && PrevWord(s, k + 1) && Piece(s, k) == ['$'] + [s[k]]
  {
    SuffixStep(s, k);
    ScanStepAtToken(s[k..]);
    TokenIsWord(s[k..]);
  }

  lemma ScanStepOther(s: string, k: nat)
    requires k < |s| && !WholeWordAt(s, k)
    ensures RewriteFrom(s[k..], PrevWord(s, k)) == [s[k]] + RewriteFrom(s[k + 1..], PrevWord(s, k + 1))
    ensures Piece(s, k) == [s[k]]
  {
    SuffixStep(s, k);
    ScanStepElsewhere(s[k..], PrevWord(s, k));
  }

  lemma SuffixStep(s: string, k: nat)
    requires k < |s|
    ensures s[k..] != [] && s[k..][0] == s[k] && s[k..][1..] == s[k + 1..]
  {
  }

  lemma {:induction false} ScanMatchesMarked(s: string, k: nat)
    requires k <= |s|
    ensures RewriteFrom(s, false) == Marked(s, k) + RewriteFrom(s[k..], PrevWord(s, k))
    decreases k
  {
    if k == 0 {
      assert s[0..] == s;
    } else {
      ScanMatchesMarked(s, k - 1);
      ScanStep(s, k - 1);
      Regroup(RewriteFrom(s, false), Marked(s, k - 1), Piece(s, k - 1),
              RewriteFrom(s[k - 1..], PrevWord(s, k - 1)), RewriteFrom(s[k..], PrevWord(s, k)));
    }
  }

  lemma Regroup(whole: string, done: string, piece: string, rest: string, rest': string)
    requires whole == done + rest && rest == piece + rest'
    ensures whole == (done + piece) + rest'
  {
  }

  lemma {:induction false} MarkedLength(s: string, k: nat)
    requires k <= |s|
    ensures |Marked(s, k)| == k + TokenCount(s, k)
    decreases k
  {
    if k > 0 {
      MarkedLength(s, k - 1);
      PieceLength(s, k - 1);
    }
  }

  lemma PieceLength(s: string, i: nat)
    requires i < |s|
    ensures |Piece(s, i)| == 1 + (if WholeWordAt(s, i) then 1 else 0)
  {
  }

  // ----- Deleting the inserted `$` gives back the input -----

  lemma {:induction false} RestoreCopiesDollarFree(a: string, b: string)
    requires '$' !in a
    ensures Restore(a + b) == a + Restore(b)
    decreases |a|
  {
    if a != [] {
      assert a[0] in a;
      assert (a + b)[0] == a[0];
      assert (a + b)[1..] == a[1..] + b;
      RestoreCopiesDollarFree(a[1..], b);
      calc {
        Restore(a + b);
        [a[0]] + Restore(a[1..] + b);
        [a[0]] + (a[1..] + Restore(b));
        { assert [a[0]] + a[1..] == a; }
        a + Restore(b);
      }
    } else {
      assert a + b == b;
    }
  }

  /** After a word character the output starts with the same word as the
      input. */
  lemma LeadingWordKept(y: string)
    ensures WordRun(RewriteFrom(y, true)) == WordRun(y)
    ensures RewriteFrom(y, true)[..WordRun(y)] == y[..WordRun(y)]
  {
    var w := WordRun(y);
    CopiesWordAfterWordChar(y, w);
    NonWordAfterWord(y);
    WordThenNonWord(y[..w], RewriteFrom(y[w..], true));
  }

  /** What the scan emits behind a word does not start with a word
      character. */
  lemma NonWordAfterWord(y: string)
    ensures var r := RewriteFrom(y[WordRun(y)..], true); r == [] || !IsWordChar(r[0])
  {
    var w := WordRun(y);
    if w < |y| {
      MatchAtIsWholeWord(y[w..], true);
      UnfoldElsewhere(y[w..], true);
    } else {
      assert y[w..] == [];
    }
  }

  /** A word followed by a non-word character or by nothing. */
  lemma WordThenNonWord(t: string, rest: string)
    requires forall i :: 0 <= i < |t| ==> IsWordChar(t[i])
    requires rest == [] || !IsWordChar(rest[0])
    ensures WordRun(t + rest) == |t|
    ensures (t + rest)[..|t|] == t
  {
    WordRunOfWordPrefix(t + rest, |t|);
  }

  /** An unmatched position is never turned into a match: the output of the
      scan never starts with a whole-word operator name. */
  lemma OutputNeverStartsWithToken(x: string)
    ensures !StartsWithToken(RewriteFrom(x, false))
  {
    var out := RewriteFrom(x, false);
    if x == [] {
      assert out[..WordRun(out)] == [];
    } else if StartsWithToken(x) {
      ScanStepAtToken(x);
      assert out[0] == '$';
      assert out[..WordRun(out)] == [];
    } else if IsWordChar(x[0]) {
      ScanStepElsewhere(x, false);
      WordStartKept(x);
    } else {
      ScanStepElsewhere(x, false);
      assert out[0] == x[0];
      assert out[..WordRun(out)] == [];
    }
  }

  /** When the input starts with a word, the output starts with the same
      word. */
  lemma WordStartKept(x: string)
    requires x != [] && IsWordChar(x[0])
    requires RewriteFrom(x, false) == [x[0]] + RewriteFrom(x[1..], true)
    ensures WordRun(RewriteFrom(x, false)) == WordRun(x)
    ensures RewriteFrom(x, false)[..WordRun(x)] == x[..WordRun(x)]
  {
    LeadingWordKept(x[1..]);
    assert [x[0]] + x[1..] == x;
    ConsSameWord(x[0], RewriteFrom(x[1..], true), x[1..]);
  }

  lemma ConsSameWord(c: char, t: string, y: string)
    requires IsWordChar(c)
    requires WordRun(t) == WordRun(y) && t[..WordRun(y)] == y[..WordRun(y)]
    ensures WordRun([c] + t) == WordRun([c] + y)
    ensures ([c] + t)[..WordRun([c] + y)] == ([c] + y)[..WordRun([c] + y)]
  {
    assert ([c] + t)[1..] == t && ([c] + y)[1..] == y;
    var w := WordRun(y);
    assert ([c] + t)[..w + 1] == [c] + t[..w];
    assert ([c] + y)[..w + 1] == [c] + y[..w];
  }

  lemma {:induction false} RestoreScan(s: string, p: bool)
    ensures Restore(RewriteFrom(s, p)) == s
    decreases |s|
  {
    if s != [] {
      var n := MatchAt(s, p);
      if n > 0 {
        RestoreScan(s[n..], true);
        RestoreAfterMatch(s, p);
      } else {
        RestoreScan(s[1..], IsWordChar(s[0]));
        RestoreAfterCopy(s, p);
      }
    }
  }

  /** Where the scan inserted a `$`, restoring deletes it and keeps the
      matched name. */
  lemma RestoreAfterMatch(s: string, p: bool)
    requires MatchAt(s, p) > 0
    requires Restore(RewriteFrom(s[MatchAt(s, p)..], true)) == s[MatchAt(s, p)..]
    ensures Restore(RewriteFrom(s, p)) == s
  {
    var n := MatchAt(s, p);
    MatchAtIsWholeWord(s, p);
    UnfoldAtMatch(s, p);
    var rest := RewriteFrom(s[n..], true);
    NonWordAfterWord(s);
    MarkedNameIsToken(s[..n], rest);
    WordHasNoDollar(s, n);
    RestoreCopiesDollarFree(s[..n], rest);
    SplitAt(s, n);
  }

  lemma WordHasNoDollar(s: string, n: nat)
    requires n <= WordRun(s)
    ensures '$' !in s[..n]
  {
    forall i | 0 <= i < n ensures s[..n][i] != '$' {
      assert IsWordChar(s[i]);
    }
  }

  lemma SplitAt(s: string, n: nat)
    requires n <= |s|
    ensures s[..n] + s[n..] == s
  {
  }

  /** The text behind an inserted `$` starts with the whole matched name. */
  lemma MarkedNameIsToken(t: string, rest: string)
    requires t in Alternatives
    requires rest == [] || !IsWordChar(rest[0])
    ensures Restore(['$'] + t + rest) == Restore(t + rest)
  {
    NameBeforeNonWord(t, rest);
    RestoreDropsMarker(t + rest);
    Associate("$", t, rest);
  }

  lemma Associate(a: string, b: string, c: string)
    ensures a + b + c == a + (b + c)
  {
  }

  /** An operator name followed by a non-word character is a whole word. */
  lemma NameBeforeNonWord(t: string, rest: string)
    requires t in Alternatives
    requires rest == [] || !IsWordChar(rest[0])
    ensures StartsWithToken(t + rest)
  {
    WordThenNonWord(t, rest);
  }

  lemma RestoreDropsMarker(t: string)
    requires StartsWithToken(t)
    ensures Restore(['$'] + t) == Restore(t)
  {
    assert (['$'] + t)[1..] == t;
  }

  /** Where the scan copied a character, restoring keeps it: a copied `$` is
      never followed by an operator name in the output. */
  lemma RestoreAfterCopy(s: string, p: bool)
    requires s != [] && MatchAt(s, p) == 0
    requires Restore(RewriteFrom(s[1..], IsWordChar(s[0]))) == s[1..]
    ensures Restore(RewriteFrom(s, p)) == s
  {
    UnfoldElsewhere(s, p);
    var rest := RewriteFrom(s[1..], IsWordChar(s[0]));
    assert ([s[0]] + rest)[1..] == rest;
    if s[0] == '$' {
      OutputNeverStartsWithToken(s[1..]);
    }
    assert [s[0]] + s[1..] == s;
  }

  // ----- The rewrite works segment by segment -----

  /** A non-word character (a quote, colon, comma or brace of the serialized
      filter) separates the rewrite: each side is rewritten on its own. */
  lemma {:induction false} RewriteFromSplits(a: string, c: char, b: string, p: bool)
    requires !IsWordChar(c)
    ensures RewriteFrom(a + [c] + b, p) == RewriteFrom(a, p) + [c] + RewriteFrom(b, false)
    decreases |a|, 1
  {
    var s := a + [c] + b;
    if a == [] {
      assert s == [c] + b && s[1..] == b;
      ScanStepElsewhere(s, p);
    } else if MatchAt(a, p) > 0 {
      SplitsAfterMatch(a, c, b, p);
    } else {
      SplitsAfterCopy(a, c, b, p);
    }
  }

  lemma {:induction false} SplitsAfterMatch(a: string, c: char, b: string, p: bool)
    requires !IsWordChar(c) && a != [] && MatchAt(a, p) > 0
    ensures RewriteFrom(a + [c] + b, p) == RewriteFrom(a, p) + [c] + RewriteFrom(b, false)
    decreases |a|, 0
  {
    var n := MatchAt(a, p);
    UnfoldBeforeSeparator(a, c, b, p);
    RewriteFromSplits(a[n..], c, b, true);
    Regroup3(RewriteFrom(a + [c] + b, p), ['$'] + a[..n], RewriteFrom(a[n..], true), c, RewriteFrom(b, false),
             RewriteFrom(a, p));
  }

  lemma {:induction false} SplitsAfterCopy(a: string, c: char, b: string, p: bool)
    requires !IsWordChar(c) && a != [] && MatchAt(a, p) == 0
    ensures RewriteFrom(a + [c] + b, p) == RewriteFrom(a, p) + [c] + RewriteFrom(b, false)
    decreases |a|, 0
  {
    UnfoldBeforeSeparator(a, c, b, p);
    RewriteFromSplits(a[1..], c, b, IsWordChar(a[0]));
    Regroup3(RewriteFrom(a + [c] + b, p), [a[0]], RewriteFrom(a[1..], IsWordChar(a[0])), c, RewriteFrom(b, false),
             RewriteFrom(a, p));
  }

  /** One step of the scan over `a + [c] + b` is the step over `a`. */
  lemma UnfoldBeforeSeparator(a: string, c: char, b: string, p: bool)
    requires !IsWordChar(c) && a != []
    ensures var n := MatchAt(a, p);
      RewriteFrom(a + [c] + b, p)
      == if n > 0 then ['$'] + a[..n] + RewriteFrom(a[n..] + [c] + b, true)
         else [a[0]] + RewriteFrom(a[1..] + [c] + b, IsWordChar(a[0]))
  {
    var s := a + [c] + b;
    SameMatchBeforeSeparator(a, c, b, p);
    var n := MatchAt(a, p);
    assert s[..n] == a[..n];
    assert s[n..] == a[n..] + [c] + b;
    assert s[0] == a[0];
    assert s[1..] == a[1..] + [c] + b;
  }

  lemma Regroup3(whole: string, head: string, mid: string, c: char, tail: string, left: string)
    requires whole == head + (mid + [c] + tail)
    requires left == head + mid
    ensures whole == left + [c] + tail
  {
  }

  /** A separator behaves like the end of the text for the match before it. */
  lemma SameMatchBeforeSeparator(a: string, c: char, b: string, p: bool)
    requires a != [] && !IsWordChar(c)
    ensures MatchAt(a + [c] + b, p) == MatchAt(a, p)
  {
    var s := a + [c] + b;
    MatchAtIsWholeWord(s, p);
    MatchAtIsWholeWord(a, p);
    var w := WordRun(a);
    assert s[w] == if w < |a| then a[w] else c;
    WordRunOfWordPrefix(s, w);
    assert s[..w] == a[..w];
  }

  lemma RewriteSplits(a: string, c: char, b: string)
    requires !IsWordChar(c)
    ensures Rewrite(a + [c] + b) == Rewrite(a) + [c] + Rewrite(b)
  {
    RewriteFromSplits(a, c, b, false);
  }

  // ----- Single words -----

  /** A lone word is prefixed with `$` exactly when it is an operator name. */
  lemma LoneWord(s: string)
    requires s != [] && forall i :: 0 <= i < |s| ==> IsWordChar(s[i])
    ensures Rewrite(s) == if s in Alternatives then "$" + s else s
  {
    WordRunOfWordPrefix(s, |s|);
    assert s[..|s|] == s;
    MatchAtIsWholeWord(s, false);
    if s in Alternatives {
      UnfoldAtMatch(s, false);
      assert s[|s|..] == [];
    } else {
      UnfoldElsewhere(s, false);
      LoneWordTail(s);
    }
  }

  lemma LoneWordTail(s: string)
    requires s != [] && WordRun(s) == |s|
    ensures RewriteFrom(s[1..], true) == s[1..]
  {
    WordRunTail(s);
    var t := s[1..];
    CopiesWordAfterWordChar(t, |t|);
    assert t[|t|..] == [] && t[..|t|] == t;
  }

  /** `gte` is an operator name and is rewritten. */
  lemma RewriteOperatorWord()
    ensures Rewrite("gte") == "$gte"
  {
    assert "gte" == Alternatives[1];
    LoneWord("gte");
  }

  /** A word that merely starts with an operator name is kept. */
  lemma RewriteKeepsLongerWord()
    ensures Rewrite("gtx") == "gtx"
  {
    KeptWord("gtx");
  }

  /** The underscore is a word character: `in_stock` is one word. */
  lemma RewriteKeepsUnderscoreWord()
    ensures Rewrite("in_stock") == "in_stock"
  {
    KeptWord("in_stock");
  }

  /** An operator name inside a word is not a match. */
  lemma RewriteKeepsInnerName()
    ensures Rewrite("line") == "line"
  {
    KeptWord("line");
  }

  lemma KeptWord(s: string)
    requires 3 <= |s| && forall i :: 0 <= i < |s| ==> IsWordChar(s[i])
    requires s[2] != 'e' || |s| != 3
    ensures Rewrite(s) == s
  {
    forall a | a in Alternatives ensures s != a {
      assert |a| == 2 || a == "gte" || a == "lte";
      if a == "gte" || a == "lte" {
        assert a[2] == 'e';
      }
    }
    LoneWord(s);
  }
}
