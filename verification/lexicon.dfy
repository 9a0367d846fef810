/** The lexicon that MyParser.create_scanner hands to its scanner, and the
    scanner's reading discipline applied to it.

    The lexicon is an ordered table of (pattern, action) entries.  The
    scanner reading it is a foreign library; its documented behaviour is
    taken here as an assumption and written out as the predicate
    LongestFirst: at each offset it picks the longest text any entry
    matches, and among the entries matching that text the earliest one.
    An entry whose action is Ignore (the whitespace entry) yields no token
    and scanning goes on after it.  ScanOne and Read are a direct
    character-class implementation of that rule; ScanOneAgrees proves the
    two agree.
 */
module Lexicon {

  // The kinds the lexicon's actions return, as the parser sees them.
  const TRUE_KIND := "Got a TRUE"
  const FALSE_KIND := "Got a FALSE"
  const EQUAL_KIND := "Got an EQUAL_SIGN"
  const NOT_KIND := "Got a NOT"
  const AND_KIND := "Got an AND"
  const OR_KIND := "Got an OR"
  const IDENTIFIER := "Identifier"

  /** Every kind some lexicon entry can return. */
  const Kinds: set<string> :=
    {TRUE_KIND, FALSE_KIND, EQUAL_KIND, NOT_KIND, AND_KIND, OR_KIND, IDENTIFIER}

  // The character classes the patterns are built from: ASCII letters,
  // decimal digits, and the three whitespace characters space, tab, newline.
  predicate IsLetter(c: char) { 'A' <= c <= 'Z' || 'a' <= c <= 'z' }
  predicate IsDigit(c: char) { '0' <= c <= '9' }
  predicate IsAlnum(c: char) { IsLetter(c) || IsDigit(c) }
  predicate IsSpace(c: char) { c == ' ' || c == '\t' || c == '\n' }

  /** The characters some entry can use at all. */
  predicate InAlphabet(c: char) { IsAlnum(c) || IsSpace(c) || c == '=' }

  predicate AllSpace(s: string) { forall k | 0 <= k < |s| :: IsSpace(s[k]) }
  predicate AllAlnum(s: string) { forall k | 0 <= k < |s| :: IsAlnum(s[k]) }
  predicate NoSpace(s: string) { forall k | 0 <= k < |s| :: !IsSpace(s[k]) }
  predicate AllInAlphabet(s: string) { forall k | 0 <= k < |s| :: InAlphabet(s[k]) }

  function LowerChar(c: char): char {
    if 'A' <= c <= 'Z' then (c as int + 32) as char else c
  }

  /** Case folding, as NoCase applies it: two texts match the same NoCase
      pattern exactly when their lower-case forms are equal. */
  function Lower(w: string): (l: string)
    ensures |l| == |w|
  {
    seq(|w|, k requires 0 <= k < |w| => LowerChar(w[k]))
  }

  /** Folding is idempotent, and keeps letters letters and other
      characters as they are. */
  lemma LowerFolds(w: string)
    ensures Lower(Lower(w)) == Lower(w)
    ensures forall k | 0 <= k < |w| :: IsLetter(Lower(w)[k]) <==> IsLetter(w[k])
    ensures forall k | 0 <= k < |w| :: !IsLetter(w[k]) ==> Lower(w)[k] == w[k]
  {
  }

  datatype Pattern =
    | BooleanFirst   // true, t or 1, in any letter case
    | BooleanSecond  // false, f or 0, in any letter case
    | EqualSign      // the equals sign
    | NotToken       // not, exactly
    | AndToken       // and, exactly
    | OrToken        // or, exactly
    | Name           // a letter, then any letters and digits
    | Space          // one or more whitespace characters

  datatype Action = Return(kind: string) | Ignore

  /** Whether pattern p matches the whole of w.  No pattern matches the
      empty text. */
  predicate Matches(p: Pattern, w: string)
    ensures Matches(p, w) ==> |w| >= 1
  {
    match p
    case BooleanFirst => Lower(w) in {"true", "t", "1"}
    case BooleanSecond => Lower(w) in {"false", "f", "0"}
    case EqualSign => w == "="
    case NotToken => w == "not"
    case AndToken => w == "and"
    case OrToken => w == "or"
    case Name => |w| >= 1 && IsLetter(w[0]) && AllAlnum(w)
    case Space => |w| >= 1 && AllSpace(w)
  }

  /** The lexicon, in declaration order. */
  const Rules: seq<(Pattern, Action)> := [
    (BooleanFirst, Return(TRUE_KIND)),
    (BooleanSecond, Return(FALSE_KIND)),
    (EqualSign, Return(EQUAL_KIND)),
    (NotToken, Return(NOT_KIND)),
    (AndToken, Return(AND_KIND)),
    (OrToken, Return(OR_KIND)),
    (Name, Return(IDENTIFIER)),
    (Space, Ignore)
  ]

  // The positions of the entries in Rules.
  const TRUE_ENTRY := 0
  const FALSE_ENTRY := 1
  const EQUAL_ENTRY := 2
  const NOT_ENTRY := 3
  const AND_ENTRY := 4
  const OR_ENTRY := 5
  const NAME_ENTRY := 6
  const SPACE_ENTRY := 7

  /** The scanner's choice at offset i (the assumed tie-break): entry r
      matches the n characters at i, no entry matches any longer text at
      i, and no entry before r matches those n characters.  Such a choice
      exists only where some entry matches. */
  ghost predicate LongestFirst(input: string, i: nat, r: nat, n: nat)
    ensures LongestFirst(input, i, r, n) ==> i < |input| && !NothingMatches(input, i)
  {
    1 <= n && i + n <= |input| && r < |Rules|
    && Matches(Rules[r].0, input[i..i + n])
    && (forall r': nat | r' < r :: !Matches(Rules[r'].0, input[i..i + n]))
    && (forall e: nat, r': nat | i + n < e <= |input| && r' < |Rules| ::
          !Matches(Rules[r'].0, input[i..e]))
  }

  /** No entry matches any non-empty text at offset i. */
  ghost predicate NothingMatches(input: string, i: nat) {
    i <= |input|
    && forall e: nat, r: nat | i < e <= |input| && r < |Rules| ::
         !Matches(Rules[r].0, input[i..e])
  }

  /** The shapes a text matched by some entry can have. */
  lemma MatchShape(p: Pattern, w: string)
    ensures Matches(p, w) ==> |w| >= 1 && (p == Space <==> IsSpace(w[0]))
    ensures Matches(p, w) && p == Space ==> AllSpace(w)
    ensures Matches(p, w) && p != Space ==>
      w == "=" || w == "1" || w == "0" || (IsLetter(w[0]) && AllAlnum(w))
  {
    if Matches(p, w) && (p == BooleanFirst || p == BooleanSecond) {
      var l := Lower(w);
      assert forall k | 0 <= k < |w| :: l[k] == LowerChar(w[k]);
      if |w| == 1 {
        assert l == [LowerChar(w[0])];
        if l == "1" || l == "0" {
          assert w == [w[0]];
        }
      } else {
        assert forall k | 0 <= k < |w| :: IsLetter(l[k]);
      }
    }
  }

  /** The end of the run of letters and digits starting at j. */
  function AlnumRun(input: string, j: nat): (e: nat)
    requires j <= |input|
    ensures j <= e <= |input|
    ensures forall k | j <= k < e :: IsAlnum(input[k])
    ensures e < |input| ==> !IsAlnum(input[e])
    decreases |input| - j
  {
    if j == |input| || !IsAlnum(input[j]) then j else AlnumRun(input, j + 1)
  }

  /** The end of the run of whitespace starting at j. */
  function SpaceRun(input: string, j: nat): (e: nat)
    requires j <= |input|
    ensures j <= e <= |input|
    ensures forall k | j <= k < e :: IsSpace(input[k])
    ensures e < |input| ==> !IsSpace(input[e])
    decreases |input| - j
  {
    if j == |input| || !IsSpace(input[j]) then j else SpaceRun(input, j + 1)
  }

  /** The length of the longest text some entry matches at i (0 if none),
      read off the character at i. */
  function LongestLength(input: string, i: nat): (n: nat)
    requires i < |input|
    ensures n <= |input| - i
  {
    var c := input[i];
    if IsSpace(c) then SpaceRun(input, i) - i
    else if IsLetter(c) then AlnumRun(input, i + 1) - i
    else if c == '0' || c == '1' || c == '=' then 1
    else 0
  }

  /** The entry a word (a letter, then letters and digits) is given: the
      boolean literals in any case, then the keywords in exact case, and
      any other word is a name. */
  function WordRule(w: string): (r: nat)
    ensures r < |Rules| && Rules[r].1.Return? && r != EQUAL_ENTRY
  {
    if Lower(w) in {"true", "t"} then TRUE_ENTRY
    else if Lower(w) in {"false", "f"} then FALSE_ENTRY
    else if w == "not" then NOT_ENTRY
    else if w == "and" then AND_ENTRY
    else if w == "or" then OR_ENTRY
    else NAME_ENTRY
  }

  /** The entry the scanner uses for the n characters at i, read off the
      character at i. */
  function RuleAt(input: string, i: nat, n: nat): (r: nat)
    requires i < |input| && i + n <= |input|
    ensures r < |Rules|
    ensures r == SPACE_ENTRY <==> IsSpace(input[i])
  {
    var c := input[i];
    if IsSpace(c) then SPACE_ENTRY
    else if c == '=' then EQUAL_ENTRY
    else if c == '1' then TRUE_ENTRY
    else if c == '0' then FALSE_ENTRY
    else WordRule(input[i..i + n])
  }

  /** WordRule picks the first entry of the lexicon that matches the word. */
  lemma WordRuleAgrees(w: string)
    requires |w| >= 1 && IsLetter(w[0]) && AllAlnum(w)
    ensures Matches(Rules[WordRule(w)].0, w)
    ensures forall r: nat | r < WordRule(w) :: !Matches(Rules[r].0, w)
  {
    assert Lower(w)[0] == LowerChar(w[0]);
    assert Lower(w) != "1" && Lower(w) != "0";
    assert Matches(Rules[NAME_ENTRY].0, w);
  }

  /** RuleAt picks the first entry that matches the longest text at i. */
  lemma RuleAtAgrees(input: string, i: nat)
    requires i < |input| && LongestLength(input, i) > 0
    ensures var n := LongestLength(input, i); var w := input[i..i + n];
      && Matches(Rules[RuleAt(input, i, n)].0, w)
      && forall r: nat | r < RuleAt(input, i, n) :: !Matches(Rules[r].0, w)
  {
    var n := LongestLength(input, i);
    var w := input[i..i + n];
    var c := input[i];
    assert w[0] == c;
    if IsSpace(c) {
      assert AllSpace(w);
      forall r: nat | r < SPACE_ENTRY ensures !Matches(Rules[r].0, w) {
        MatchShape(Rules[r].0, w);
      }
    } else if IsLetter(c) {
      assert AllAlnum(w);
      WordRuleAgrees(w);
    } else {
      assert w == [c];
      assert Lower(w) == [c] by {
        assert Lower(w)[0] == LowerChar(c);
      }
    }
  }

  datatype Scan = Lexeme(rule: nat, len: nat) | AtEnd | NoMatch

  /** One step of the scanner at offset i: the entry chosen and the length
      of the text it consumes. */
  function ScanOne(input: string, i: nat): (s: Scan)
    requires i <= |input|
    ensures s.AtEnd? <==> i == |input|
    ensures s.Lexeme? ==> s.rule < |Rules| && 1 <= s.len <= |input| - i
  {
    if i == |input| then AtEnd
    else
      var n := LongestLength(input, i);
      if n == 0 then NoMatch else Lexeme(RuleAt(input, i, n), n)
  }

  /** ScanOne makes exactly the choice the lexicon's tie-break rule
      prescribes, and reports NoMatch exactly when no entry matches. */
  lemma ScanOneAgrees(input: string, i: nat)
    requires i <= |input|
    ensures ScanOne(input, i).Lexeme? ==>
      LongestFirst(input, i, ScanOne(input, i).rule, ScanOne(input, i).len)
    ensures forall r: nat, n: nat | LongestFirst(input, i, r, n) :: ScanOne(input, i) == Lexeme(r, n)
    ensures ScanOne(input, i) == NoMatch <==> i < |input| && NothingMatches(input, i)
  {
    if i == |input| {
      return;
    }
    var c := input[i];
    var n := LongestLength(input, i);
    // No entry matches a text at i longer than n.
    forall e: nat, r': nat | i + n < e <= |input| && r' < |Rules|
      ensures !Matches(Rules[r'].0, input[i..e])
    {
      var u := input[i..e];
      MatchShape(Rules[r'].0, u);
      assert u[0] == c && u[n] == input[i + n];
    }
    if n == 0 {
      assert ScanOne(input, i) == NoMatch;
    } else {
      var s := ScanOne(input, i);
      RuleAtAgrees(input, i);
      assert LongestFirst(input, i, s.rule, s.len);
      forall r: nat, n': nat | LongestFirst(input, i, r, n')
        ensures r == s.rule && n' == s.len
      {
        assert !(n < n');
        assert !(n' < n);
      }
      assert !NothingMatches(input, i) by {
        assert Matches(Rules[s.rule].0, input[i..i + n]);
      }
    }
  }

  datatype ReadResult =
    | Emitted(kind: string, text: string, next: nat)  // a token and the offset after it
    | Exhausted(next: nat)                            // end of input: read() gives a None kind
    | Unrecognized(at: nat)                           // the scanner error, at this offset

  /** The scanner's read(): scan from offset i, skipping ignored text,
      until an entry returns a kind, the input ends, or nothing matches. */
  function Read(input: string, i: nat): (r: ReadResult)
    requires i <= |input|
    ensures r.Emitted? ==> r.kind in Kinds && i < r.next <= |input|
    ensures r.Exhausted? ==> r.next == |input|
    ensures r.Unrecognized? ==> i <= r.at < |input|
    decreases |input| - i
  {
    match ScanOne(input, i)
    case AtEnd => Exhausted(|input|)
    case NoMatch => Unrecognized(i)
    case Lexeme(rule, n) =>
      match Rules[rule].1
      case Ignore => Read(input, i + n)
      case Return(kind) => Emitted(kind, input[i..i + n], i + n)
  }

  /** At whitespace the scanner takes the whole run with the ignored entry. */
  lemma ScanAtSpace(input: string, i: nat)
    requires i < |input| && IsSpace(input[i])
    ensures ScanOne(input, i) == Lexeme(SPACE_ENTRY, SpaceRun(input, i) - i)
  {
    assert LongestLength(input, i) == SpaceRun(input, i) - i;
  }

  /** Text taken by the ignored entry yields no token: read() goes on after it. */
  lemma ReadIgnored(input: string, i: nat, n: nat)
    requires i <= |input| && ScanOne(input, i) == Lexeme(SPACE_ENTRY, n)
    ensures Read(input, i) == Read(input, i + n)
  {
    assert Rules[SPACE_ENTRY].1 == Ignore;
  }

  /** Leading whitespace is consumed by the ignored entry as one run. */
  lemma SkipSpace(input: string, i: nat)
    requires i <= |input|
    ensures Read(input, i) == Read(input, SpaceRun(input, i))
  {
    var j := SpaceRun(input, i);
    if i < j {
      ScanAtSpace(input, i);
      ReadIgnored(input, i, j - i);
    }
  }

  /** At a non-space offset Read reports exactly what ScanOne chose, and
      the entry chosen there returns a kind. */
  lemma ReadAtToken(input: string, j: nat)
    requires j <= |input| && (j < |input| ==> !IsSpace(input[j]))
    ensures ScanOne(input, j).AtEnd? ==> Read(input, j) == Exhausted(|input|)
    ensures ScanOne(input, j).NoMatch? ==> Read(input, j) == Unrecognized(j)
    ensures ScanOne(input, j).Lexeme? ==>
      var s := ScanOne(input, j);
      Rules[s.rule].1.Return?
      && Read(input, j) == Emitted(Rules[s.rule].1.kind, input[j..j + s.len], j + s.len)
  {
    var s := ScanOne(input, j);
    if s.Lexeme? {
      assert s.rule != SPACE_ENTRY;
    }
  }

  /** What Read does, stated against the tie-break rule: it skips the
      whitespace run at i, then ends, fails, or emits the text and kind of
      the entry the rule chooses at the first non-space offset. */
  lemma ReadAgrees(input: string, i: nat)
    requires i <= |input|
    ensures var j := SpaceRun(input, i); var r := Read(input, i);
      && (r.Exhausted? <==> j == |input|)
      && (r.Unrecognized? <==> j < |input| && NothingMatches(input, j))
      && (r.Unrecognized? ==> r.at == j)
      && (forall rule: nat, n: nat | LongestFirst(input, j, rule, n) ::
            Rules[rule].1.Return?
            && r == Emitted(Rules[rule].1.kind, input[j..j + n], j + n))
  {
    var j := SpaceRun(input, i);
    SkipSpace(input, i);
    ReadAtToken(input, j);
    ScanOneAgrees(input, j);
  }

  /** The text the scanner takes at a non-space offset is a word, "=",
      "0" or "1": it holds no whitespace and only lexicon characters. */
  lemma TokenText(input: string, j: nat)
    requires j < |input| && !IsSpace(input[j])
    ensures var n := LongestLength(input, j);
      NoSpace(input[j..j + n]) && AllInAlphabet(input[j..j + n])
  {
    var w := input[j..j + LongestLength(input, j)];
    if IsLetter(input[j]) {
      forall k | 0 <= k < |w| ensures IsAlnum(w[k]) {
        assert w[k] == input[j + k];
      }
    } else if w != [] {
      assert w == [input[j]];
    }
  }

  /** The shape of one read: a token's text is the non-space text right
      after the skipped whitespace, and uses only lexicon characters. */
  lemma ReadShape(input: string, i: nat)
    requires i <= |input|
    ensures var j := SpaceRun(input, i); var r := Read(input, i);
      && (r.Emitted? ==>
            j < r.next && r.text == input[j..r.next] && NoSpace(r.text) && AllInAlphabet(r.text))
      && (r.Unrecognized? ==> r.at == j)
      && (r.Exhausted? ==> j == |input|)
  {
    var j := SpaceRun(input, i);
    SkipSpace(input, i);
    ReadAtToken(input, j);
    if j < |input| {
      TokenText(input, j);
    }
  }

  datatype Token = Token(kind: string, text: string)
  datatype End = Finished | Failed(at: nat)
  datatype Lexed = Lexed(tokens: seq<Token>, end: End)

  /** The whole token stream the scanner would deliver from offset i,
      and how it ends. */
  function Tokenize(input: string, i: nat): (t: Lexed)
    requires i <= |input|
    ensures forall k | 0 <= k < |t.tokens| :: t.tokens[k].kind in Kinds
    ensures t.end.Failed? ==> i <= t.end.at < |input|
    decreases |input| - i
  {
    match Read(input, i)
    case Emitted(kind, text, next) =>
      var rest := Tokenize(input, next);
      Lexed([Token(kind, text)] + rest.tokens, rest.end)
    case Exhausted(_) => Lexed([], Finished)
    case Unrecognized(at) => Lexed([], Failed(at))
  }

  /** The texts of the tokens, one after another. */
  function Concat(ts: seq<Token>): string {
    if ts == [] then [] else ts[0].text + Concat(ts[1..])
  }

  /** s without its whitespace. */
  function Strip(s: string): string {
    if s == [] then [] else (if IsSpace(s[0]) then [] else [s[0]]) + Strip(s[1..])
  }

  lemma {:induction false} StripAppend(a: string, b: string)
    ensures Strip(a + b) == Strip(a) + Strip(b)
  {
    if a == [] {
      assert a + b == b;
    } else {
      assert (a + b)[1..] == a[1..] + b;
      StripAppend(a[1..], b);
    }
  }

  lemma {:induction false} StripSpaces(s: string)
    requires AllSpace(s)
    ensures Strip(s) == []
  {
    if s != [] {
      StripSpaces(s[1..]);
    }
  }

  lemma {:induction false} StripKeeps(s: string)
    requires NoSpace(s)
    ensures Strip(s) == s
  {
    if s != [] {
      StripKeeps(s[1..]);
      assert s == [s[0]] + s[1..];
    }
  }

  /** Where scanning from some offset stops: the end of the input, or the
      offset of the scanner error. */
  function StopOf(input: string, t: Lexed): nat {
    if t.end.Failed? then t.end.at else |input|
  }

  /** Nothing but whitespace is lost: up to where scanning stops the token
      texts, in order, spell out the input with its whitespace removed. */
  lemma {:induction false} TextsCoverInput(input: string, i: nat)
    requires i <= |input|
    ensures i <= StopOf(input, Tokenize(input, i)) <= |input|
    ensures Concat(Tokenize(input, i).tokens) == Strip(input[i..StopOf(input, Tokenize(input, i))])
    decreases |input| - i
  {
    var j := SpaceRun(input, i);
    ReadShape(input, i);
    StripSpaces(input[i..j]);
    var r := Read(input, i);
    if r.Emitted? {
      TextsCoverInput(input, r.next);
      TextsCoverStep(input, i, r.kind, r.text, r.next);
    }
  }

  lemma SliceSplit(s: string, a: nat, b: nat, c: nat)
    requires a <= b <= c <= |s|
    ensures s[a..c] == s[a..b] + s[b..c]
  {
  }

  /** Stripping a whitespace run, a text without whitespace and a rest. */
  lemma StripSplit(a: string, b: string, c: string)
    requires AllSpace(a) && NoSpace(b)
    ensures Strip(a + b + c) == b + Strip(c)
  {
    StripSpaces(a);
    StripKeeps(b);
    assert a + b + c == a + (b + c);
    StripAppend(a, b + c);
    StripAppend(b, c);
  }

  lemma TextsCoverStep(input: string, i: nat, kind: string, text: string, next: nat)
    requires i <= |input| && Read(input, i) == Emitted(kind, text, next)
    requires next <= StopOf(input, Tokenize(input, next)) <= |input|
    requires Concat(Tokenize(input, next).tokens) == Strip(input[next..StopOf(input, Tokenize(input, next))])
    ensures StopOf(input, Tokenize(input, i)) == StopOf(input, Tokenize(input, next))
    ensures Concat(Tokenize(input, i).tokens) == Strip(input[i..StopOf(input, Tokenize(input, i))])
  {
    var rest := Tokenize(input, next);
    assert Tokenize(input, i) == Lexed([Token(kind, text)] + rest.tokens, rest.end);
    assert Concat([Token(kind, text)] + rest.tokens) == text + Concat(rest.tokens) by {
      assert ([Token(kind, text)] + rest.tokens)[1..] == rest.tokens;
    }
    ReadShape(input, i);
    var j, stop := SpaceRun(input, i), StopOf(input, rest);
    assert AllSpace(input[i..j]);
    SliceSplit(input, i, j, next);
    SliceSplit(input, i, next, stop);
    StripSplit(input[i..j], input[j..next], input[next..stop]);
  }

  /** A character outside the lexicon's alphabet (such as '(', ')' or '@')
      can never be read past: scanning fails at or before it, at an offset
      where no entry matches. */
  lemma {:induction false} ForeignCharStops(input: string, i: nat, c: nat)
    requires i <= c < |input| && !InAlphabet(input[c])
    ensures Tokenize(input, i).end.Failed?
    ensures Tokenize(input, i).end.at <= c
    ensures NothingMatches(input, Tokenize(input, i).end.at)
    decreases |input| - i
  {
    ReadBeforeForeign(input, i, c);
    match Read(input, i)
    case Emitted(kind, text, next) =>
      ForeignCharStops(input, next, c);
    case Exhausted(_) =>
    case Unrecognized(at) =>
  }

  /** One read() from before a foreign character stops short of it. */
  lemma ReadBeforeForeign(input: string, i: nat, c: nat)
    requires i <= c < |input| && !InAlphabet(input[c])
    ensures !Read(input, i).Exhausted?
    ensures Read(input, i).Emitted? ==> Read(input, i).next <= c
    ensures Read(input, i).Unrecognized? ==>
      Read(input, i).at <= c && NothingMatches(input, Read(input, i).at)
  {
    var j := SpaceRun(input, i);
    ReadShape(input, i);
    ReadAgrees(input, i);
    match Read(input, i)
    case Emitted(kind, text, next) =>
      forall k | i <= k < next ensures InAlphabet(input[k]) {
        if j <= k {
          assert input[k] == text[k - j];
        }
      }
    case Exhausted(_) =>
    case Unrecognized(at) =>
  }

  /** Input made only of whitespace produces no token and ends normally. */
  lemma OnlySpaces(input: string)
    requires AllSpace(input)
    ensures Tokenize(input, 0) == Lexed([], Finished)
  {
    assert SpaceRun(input, 0) == |input|;
    ReadAgrees(input, 0);
  }

  /** A lone word (a letter followed by letters and digits) is one token
      whose text is the whole word; its kind is the first entry that
      matches the whole word, so the boolean words in any case come before
      the keywords, and the keywords (exact case) before Identifier. */
  lemma LoneWord(w: string)
    requires |w| >= 1 && IsLetter(w[0]) && AllAlnum(w)
    ensures var t := Tokenize(w, 0);
      && t.end == Finished && |t.tokens| == 1 && t.tokens[0].text == w
      && (t.tokens[0].kind == TRUE_KIND <==> Lower(w) in {"true", "t"})
      && (t.tokens[0].kind == FALSE_KIND <==> Lower(w) in {"false", "f"})
      && (t.tokens[0].kind == NOT_KIND <==> w == "not")
      && (t.tokens[0].kind == AND_KIND <==> w == "and")
      && (t.tokens[0].kind == OR_KIND <==> w == "or")
      && (t.tokens[0].kind == IDENTIFIER <==>
            Lower(w) !in {"true", "t", "false", "f"} && w !in {"not", "and", "or"})
  {
    assert AlnumRun(w, 1) == |w|;
    assert w[0..|w|] == w;
    var r := WordRule(w);
    assert ScanOne(w, 0) == Lexeme(r, |w|);
    assert Read(w, 0) == Emitted(Rules[r].1.kind, w, |w|);
    assert Tokenize(w, |w|) == Lexed([], Finished);
  }

  /** The boolean literals: true, t and 1 in any letter case are one
      "Got a TRUE" token; false, f and 0 in any case one "Got a FALSE". */
  lemma BooleanLiterals(w: string)
    ensures Lower(w) in {"true", "t", "1"} ==> Tokenize(w, 0) == Lexed([Token(TRUE_KIND, w)], Finished)
    ensures Lower(w) in {"false", "f", "0"} ==> Tokenize(w, 0) == Lexed([Token(FALSE_KIND, w)], Finished)
  {
    if Lower(w) in {"true", "t", "1", "false", "f", "0"} {
      assert Lower(w)[0] == LowerChar(w[0]);
      MatchShape(if Lower(w) in {"true", "t", "1"} then BooleanFirst else BooleanSecond, w);
      if w == "1" || w == "0" {
        assert Lower(w) == w;
        assert ScanOne(w, 0) == Lexeme(if w == "1" then TRUE_ENTRY else FALSE_ENTRY, 1);
        assert w[0..1] == w;
        ReadAtToken(w, 0);
        assert Tokenize(w, 1) == Lexed([], Finished);
      } else {
        LoneWord(w);
      }
    }
  }

  /** "=" on its own is one "Got an EQUAL_SIGN" token. */
  lemma LoneEqualSign()
    ensures Tokenize("=", 0) == Lexed([Token(EQUAL_KIND, "=")], Finished)
  {
    assert ScanOne("=", 0) == Lexeme(EQUAL_ENTRY, 1);
    assert Read("=", 0) == Emitted(EQUAL_KIND, "=", 1);
  }

  /** The three keywords, each on its own, are their own kinds. */
  lemma Keywords(w: string)
    requires w in {"not", "and", "or"}
    ensures Tokenize(w, 0) == Lexed([Token(
      if w == "not" then NOT_KIND else if w == "and" then AND_KIND else OR_KIND, w)], Finished)
  {
    assert IsLetter(w[0]) && AllAlnum(w);
    LoneWord(w);
  }

  /** The keywords are case-sensitive, and print is no keyword at all:
      both words below are Identifiers. */
  lemma NotReserved()
    ensures Tokenize("NOT", 0) == Lexed([Token(IDENTIFIER, "NOT")], Finished)
    ensures Tokenize("print", 0) == Lexed([Token(IDENTIFIER, "print")], Finished)
  {
    LoneWord("NOT");
    assert Lower("print")[0] == 'p';
    LoneWord("print");
  }

  /** A longer word that merely starts like a literal or a keyword is an
      Identifier: the longest match wins over the earlier entry. */
  lemma LongerWords()
    ensures Tokenize("true1", 0) == Lexed([Token(IDENTIFIER, "true1")], Finished)
    ensures Tokenize("nota", 0) == Lexed([Token(IDENTIFIER, "nota")], Finished)
  {
    assert Lower("true1")[0] == 't';
    LoneWord("true1");
    assert Lower("nota")[0] == 'n';
    LoneWord("nota");
  }
}
