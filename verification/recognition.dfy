/** What MyParser's procedures decide, as functions of the token kinds they
    will meet.

    A procedure looks only at the kind of the lookahead, consumes it with
    match, and calls the next procedure; the first ParseError, or the first
    scanner error met while reading the next lookahead, ends the parse.  So
    the outcome of each procedure is a function of the stream of kinds that
    starts at the current lookahead, together with how that stream ends.
    The class in module Parser is proved to compute exactly these
    functions; the lemmas here say what they mean for every input.
 */
module Recognition {
  import opened Lexicon

  // The two kinds the parser compares the lookahead with that no lexicon entry returns.
  const EQUAL_SIGN_WANTED := "equalSign"
  const PRINT_WANTED := "print"

  // The messages of the ParseErrors the procedures raise.
  const SESSION_MSG := "Expected identifier or print keyword"
  const OPERATOR_MSG := "Expected not, and, or"
  const OPERAND_MSG := "Expected identifier or boolean"
  const EQUAL_MSG := "Expected '=' "

  /** How a procedure ends: it returns normally, raises ParseError with a
      message, or the scanner fails at an offset. */
  datatype Outcome = Ok | ParseError(msg: string) | ScanError(at: nat)

  /** The kinds a procedure will meet, the lookahead first, and how the
      token stream ends after them.  No kinds and a Failed end means that
      the lookahead itself cannot be read. */
  datatype Stream = Stream(kinds: seq<string>, end: End)

  function KindsOf(ts: seq<Token>): seq<string> {
    seq(|ts|, k requires 0 <= k < |ts| => ts[k].kind)
  }

  function StreamOf(t: Lexed): Stream {
    Stream(KindsOf(t.tokens), t.end)
  }

  /** One read() moves the stream of kinds on by the kind it emits. */
  lemma StreamStep(input: string, i: nat)
    requires i <= |input|
    ensures match Read(input, i)
      case Emitted(kind, _, next) =>
        StreamOf(Tokenize(input, i))
          == Stream([kind] + KindsOf(Tokenize(input, next).tokens), Tokenize(input, next).end)
      case Exhausted(_) => StreamOf(Tokenize(input, i)) == Stream([], Finished)
      case Unrecognized(at) => StreamOf(Tokenize(input, i)) == Stream([], Failed(at))
  {
    match Read(input, i)
    case Emitted(kind, text, next) =>
      var rest := Tokenize(input, next).tokens;
      assert Tokenize(input, i).tokens == [Token(kind, text)] + rest;
      assert KindsOf([Token(kind, text)] + rest) == [kind] + KindsOf(rest);
    case Exhausted(_) =>
    case Unrecognized(_) =>
  }

  predicate Unreadable(s: Stream) {
    s.kinds == [] && s.end.Failed?
  }

  /** The stream after the lookahead has been consumed. */
  function Rest(s: Stream): Stream
    requires s.kinds != []
  {
    Stream(s.kinds[1..], s.end)
  }

  /** The kinds identifier accepts: an Identifier or a boolean literal. */
  predicate IsOperand(k: string) {
    k == IDENTIFIER || k == TRUE_KIND || k == FALSE_KIND
  }

  /** The kinds logical accepts: not, or, and. */
  predicate IsOperator(k: string) {
    k == NOT_KIND || k == OR_KIND || k == AND_KIND
  }

  predicate Fits(k: string, operand: bool) {
    if operand then IsOperand(k) else IsOperator(k)
  }

  /** Whether the j-th kind of a chain that starts with an operand (when
      operandFirst) must be an operand: operands and operators alternate. */
  predicate OperandAt(j: nat, operandFirst: bool) {
    (j % 2 == 0) == operandFirst
  }

  function ExpectedMsg(operand: bool): string {
    if operand then OPERAND_MSG else OPERATOR_MSG
  }

  /** The first position where the alternation of operands and operators
      breaks, |ks| when it never does. */
  function FirstBreak(ks: seq<string>, operandFirst: bool): (b: nat)
    ensures b <= |ks|
    ensures forall j | 0 <= j < b :: Fits(ks[j], OperandAt(j, operandFirst))
    ensures b < |ks| ==> !Fits(ks[b], OperandAt(b, operandFirst))
  {
    if ks == [] || !Fits(ks[0], operandFirst) then 0
    else 1 + FirstBreak(ks[1..], !operandFirst)
  }

  /** The outcome of identifier (operandFirst) or logical (!operandFirst):
      the two call each other after every consumed kind, so they consume
      the longest alternating prefix and then fail -- with the message of
      the procedure that meets the breaking kind, or that meets the end of
      input, or with the scanner error hit while reading past the prefix. */
  function ChainOutcome(s: Stream, operandFirst: bool): (o: Outcome)
    ensures o != Ok
    ensures o.ParseError? ==> o.msg == OPERAND_MSG || o.msg == OPERATOR_MSG
    ensures o.ScanError? ==> s.end == Failed(o.at)
  {
    var b := FirstBreak(s.kinds, operandFirst);
    if b == |s.kinds| && s.end.Failed? then ScanError(s.end.at)
    else ParseError(ExpectedMsg(OperandAt(b, operandFirst)))
  }

  /** The outcome of equalSign. */
  function EqualSignOutcome(s: Stream): (o: Outcome)
    ensures o != Ok
    ensures o.ParseError? ==> o.msg in {EQUAL_MSG, OPERAND_MSG, OPERATOR_MSG}
    ensures o.ScanError? ==> s.end == Failed(o.at)
  {
    if Unreadable(s) then ScanError(s.end.at)
    else if s.kinds != [] && s.kinds[0] == EQUAL_SIGN_WANTED then ChainOutcome(Rest(s), true)
    else ParseError(EQUAL_MSG)
  }

  /** The outcome of session. */
  function SessionOutcome(s: Stream): (o: Outcome)
    ensures o == Ok ==> s.kinds != [] && s.kinds[0] == PRINT_WANTED
    ensures o.ParseError? ==> o.msg in {SESSION_MSG, EQUAL_MSG, OPERAND_MSG, OPERATOR_MSG}
    ensures o.ScanError? ==> s.end == Failed(o.at)
  {
    if Unreadable(s) then ScanError(s.end.at)
    else if s.kinds != [] && s.kinds[0] == IDENTIFIER then EqualSignOutcome(Rest(s))
    else if s.kinds != [] && s.kinds[0] == PRINT_WANTED then
      (if Unreadable(Rest(s)) then ScanError(s.end.at) else Ok)
    else ParseError(SESSION_MSG)
  }

  /** The outcome of parse on a whole input: create the scanner (which
      reads the first lookahead), then call session. */
  function ParseOutcome(input: string): (o: Outcome)
    ensures o.ScanError? ==> o.at < |input|
  {
    SessionOutcome(StreamOf(Tokenize(input, 0)))
  }

  /** Consuming a kind that fits moves the chain on to the other procedure. */
  lemma ChainStep(s: Stream, operandFirst: bool)
    requires s.kinds != [] && Fits(s.kinds[0], operandFirst)
    ensures ChainOutcome(s, operandFirst) == ChainOutcome(Rest(s), !operandFirst)
  {
    var b := FirstBreak(s.kinds[1..], !operandFirst);
    assert FirstBreak(s.kinds, operandFirst) == 1 + b;
    assert ((1 + b) % 2 == 0) == (b % 2 != 0);
  }

  /** The chain of identifier and logical never returns normally: a
      well-alternating run of kinds ends in a ParseError at the end of
      input, and a ParseError is raised exactly at the first misplaced kind. */
  lemma {:induction false} ChainAlwaysFails(s: Stream, operandFirst: bool)
    ensures ChainOutcome(s, operandFirst) != Ok
    ensures s.end == Finished ==>
      ChainOutcome(s, operandFirst)
        == ParseError(ExpectedMsg(OperandAt(FirstBreak(s.kinds, operandFirst), operandFirst)))
    ensures forall j | 0 <= j < |s.kinds| ::
      (forall i | 0 <= i < j :: Fits(s.kinds[i], OperandAt(i, operandFirst)))
      && !Fits(s.kinds[j], OperandAt(j, operandFirst))
      ==> ChainOutcome(s, operandFirst) == ParseError(ExpectedMsg(OperandAt(j, operandFirst)))
  {
    var b := FirstBreak(s.kinds, operandFirst);
    forall j | 0 <= j < |s.kinds|
        && (forall i | 0 <= i < j :: Fits(s.kinds[i], OperandAt(i, operandFirst)))
        && !Fits(s.kinds[j], OperandAt(j, operandFirst))
      ensures b == j
    {
    }
  }

  /** session returns normally only when the lookahead is "print" and the
      token after it can be read: an Identifier leads to equalSign, which
      either fails or passes on to the chain, and the chain always fails. */
  lemma SessionOkOnlyOnPrint(s: Stream)
    ensures SessionOutcome(s) == Ok <==>
      s.kinds != [] && s.kinds[0] == PRINT_WANTED && !Unreadable(Rest(s))
  {
    if s.kinds != [] && s.kinds[0] == IDENTIFIER {
      var r := Rest(s);
      if r.kinds != [] && r.kinds[0] == EQUAL_SIGN_WANTED {
        ChainAlwaysFails(Rest(r), true);
      }
    }
  }

  /** No kind the lexicon produces is one of the two the parser waits for. */
  lemma {:induction false} LexedKindsNeverWanted(input: string, i: nat)
    requires i <= |input|
    ensures forall k | k in KindsOf(Tokenize(input, i).tokens) ::
      k != EQUAL_SIGN_WANTED && k != PRINT_WANTED
  {
    var ks := KindsOf(Tokenize(input, i).tokens);
    forall k | k in ks ensures k != EQUAL_SIGN_WANTED && k != PRINT_WANTED {
      var j :| 0 <= j < |ks| && ks[j] == k;
      assert k in Kinds;
    }
  }

  /** No input is accepted: on every input, parse ends in a ParseError or
      a scanner error. */
  lemma NoInputAccepted(input: string)
    ensures ParseOutcome(input) != Ok
  {
    var s := StreamOf(Tokenize(input, 0));
    LexedKindsNeverWanted(input, 0);
    SessionOkOnlyOnPrint(s);
    if s.kinds != [] {
      assert s.kinds[0] in KindsOf(Tokenize(input, 0).tokens);
    }
  }

  /** Exactly how parse ends on an input, in terms of its first two tokens:
      the first must be an Identifier, and the token after it, whatever it
      is (an "=" included), or the end of input, is met with "Expected '=' ".
      A scanner error counts only when the parser reaches it. */
  lemma ParseOutcomeExact(input: string)
    ensures var t := Tokenize(input, 0);
      ParseOutcome(input) ==
        if t.tokens == [] then
          (if t.end.Failed? then ScanError(t.end.at) else ParseError(SESSION_MSG))
        else if t.tokens[0].kind != IDENTIFIER then ParseError(SESSION_MSG)
        else if |t.tokens| == 1 && t.end.Failed? then ScanError(t.end.at)
        else ParseError(EQUAL_MSG)
  {
    var t := Tokenize(input, 0);
    var s := StreamOf(t);
    LexedKindsNeverWanted(input, 0);
    if t.tokens != [] {
      assert s.kinds[0] == t.tokens[0].kind;
      assert s.kinds[0] in KindsOf(t.tokens);
      if |t.tokens| > 1 {
        assert Rest(s).kinds[0] == t.tokens[1].kind;
        assert Rest(s).kinds[0] in KindsOf(t.tokens);
      }
    }
  }
}
