/** The fragment of regular expressions the calculator's rewrite rules use,
    under `re.search` semantics (does the pattern match anywhere in the text?).

    A pattern is a list of alternatives; an alternative is a token sequence.
    For unanchored search the rule patterns reduce to this fragment without
    changing which texts they match: an optional leading `(?:the\s+)?` can
    always be skipped, a leading `\d+(?:\.\d+)?` can always start at its last
    digit, a trailing `\d+(?:\.\d+)?`, `\d+` or `[^,]+` can always stop after
    one character, and an alternation `(?:a|b)` becomes one alternative per branch. */
module Patterns {
  import opened Wrappers
  import opened Text

  datatype Token =
    | Lit(text: string)   // the literal characters
    | Spaces              // `\s+`
    | OptSpaces           // `\s*`
    | Digit               // `\d` (ASCII digits)
    | NotComma            // `[^,]`

  type Alternative = seq<Token>
  type Pattern = seq<Alternative>

  /** The token sequence `p` matches some prefix of `s[i..]`. */
  predicate MatchAt(p: Alternative, s: string, i: nat)
    requires i <= |s|
    decreases |s| - i, |p|
  {
    if |p| == 0 then true
    else match p[0]
      case Lit(w) => i + |w| <= |s| && s[i..i + |w|] == w && MatchAt(p[1..], s, i + |w|)
      case Spaces => i < |s| && IsSpace(s[i]) && MatchAt([OptSpaces] + p[1..], s, i + 1)
      case OptSpaces => MatchAt(p[1..], s, i) || (i < |s| && IsSpace(s[i]) && MatchAt(p, s, i + 1))
      case Digit => i < |s| && IsDigit(s[i]) && MatchAt(p[1..], s, i + 1)
      case NotComma => i < |s| && s[i] != ',' && MatchAt(p[1..], s, i + 1)
  }

  /** `re.search(pattern, s) is not None`. */
  predicate Search(pat: Pattern, s: string) {
    exists k: nat, i: nat :: k < |pat| && i <= |s| && MatchAt(pat[k], s, i)
  }

  /** If `p + q` matches at `i`, then `q` alone matches at some later position:
      an unanchored search for `q` succeeds wherever one for `p + q` does. */
  lemma {:induction false} SuffixMatches(p: Alternative, q: Alternative, s: string, i: nat)
    requires i <= |s| && MatchAt(p + q, s, i)
    ensures exists j: nat :: i <= j <= |s| && MatchAt(q, s, j)
    decreases |s| - i, |p|
  {
    if |p| == 0 {
      assert p + q == q;
    } else {
      assert (p + q)[0] == p[0];
      assert (p + q)[1..] == p[1..] + q;
      match p[0]
      case Lit(w) =>
        SuffixMatches(p[1..], q, s, i + |w|);
      case Spaces =>
        assert [OptSpaces] + (p + q)[1..] == ([OptSpaces] + p[1..]) + q;
        SuffixMatches([OptSpaces] + p[1..], q, s, i + 1);
      case OptSpaces =>
        if MatchAt((p + q)[1..], s, i) {
          SuffixMatches(p[1..], q, s, i);
        } else {
          SuffixMatches(p, q, s, i + 1);
        }
      case Digit =>
        SuffixMatches(p[1..], q, s, i + 1);
      case NotComma =>
        SuffixMatches(p[1..], q, s, i + 1);
    }
  }

  /** A literal `a + b` matching at `i` means the literal `b` matches at `i + |a|`,
      followed by the same rest. */
  lemma LiteralTailMatches(a: string, b: string, rest: Alternative, s: string, i: nat)
    requires i <= |s| && MatchAt([Lit(a + b)] + rest, s, i)
    ensures i + |a| <= |s| && MatchAt([Lit(b)] + rest, s, i + |a|)
  {
    assert ([Lit(a + b)] + rest)[1..] == rest;
    assert ([Lit(b)] + rest)[1..] == rest;
    assert s[i + |a|..i + |a| + |b|] == s[i..i + |a + b|][|a|..];
  }

  /** Search for an alternative list whose every alternative ends with the
      corresponding alternative of another list succeeds whenever the longer one does. */
  lemma SearchSuffix(long: Pattern, short: Pattern, s: string)
    requires |long| == |short|
    requires forall k :: 0 <= k < |long| ==> exists pre: Alternative :: long[k] == pre + short[k]
    ensures Search(long, s) ==> Search(short, s)
  {
    if Search(long, s) {
      var k: nat, i: nat :| k < |long| && i <= |s| && MatchAt(long[k], s, i);
      var pre: Alternative :| long[k] == pre + short[k];
      SuffixMatches(pre, short[k], s, i);
    }
  }

  /** The first character of the first non-empty literal of an alternative. */
  function LeadingLiteralChar(alt: Alternative): Option<char> {
    if |alt| == 0 then None
    else if alt[0].Lit? && |alt[0].text| > 0 then Some(alt[0].text[0])
    else LeadingLiteralChar(alt[1..])
  }

  /** An alternative with a literal can only match a text containing the
      literal's first character. */
  lemma {:induction false} MatchNeedsLeadingLiteral(alt: Alternative, s: string, i: nat)
    requires i <= |s| && MatchAt(alt, s, i) && LeadingLiteralChar(alt).Some?
    ensures LeadingLiteralChar(alt).value in s
    decreases |s| - i, |alt|
  {
    match alt[0]
    case Lit(w) =>
      if |w| > 0 {
        assert s[i] == s[i..i + |w|][0];
      } else {
        MatchNeedsLeadingLiteral(alt[1..], s, i + |w|);
      }
    case Spaces =>
      assert ([OptSpaces] + alt[1..])[1..] == alt[1..];
      MatchNeedsLeadingLiteral([OptSpaces] + alt[1..], s, i + 1);
    case OptSpaces =>
      if MatchAt(alt[1..], s, i) {
        MatchNeedsLeadingLiteral(alt[1..], s, i);
      } else {
        MatchNeedsLeadingLiteral(alt, s, i + 1);
      }
    case Digit =>
      MatchNeedsLeadingLiteral(alt[1..], s, i + 1);
    case NotComma =>
      MatchNeedsLeadingLiteral(alt[1..], s, i + 1);
  }
}
