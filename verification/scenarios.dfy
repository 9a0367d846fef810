/** Concrete inputs given to the model of parse: what the recognizer
    does with sample statements of the language its grammar comment
    describes. */
module Scenarios {
  import opened Lexicon
  import opened Recognition

  /** Every assignment to x is rejected at its "=": the lexicon gives "="
      the kind "Got an EQUAL_SIGN", while equalSign waits for the kind
      "equalSign".  Whatever follows ("true", ")", "1 and", "not y") is
      never looked at, not even by the scanner. */
  lemma AssignmentRejected(rest: string)
    ensures ParseOutcome("x = " + rest) == ParseError(EQUAL_MSG)
  {
    var s := "x = " + rest;
    assert s[0..1] == "x";
    assert AlnumRun(s, 1) == 1;
    assert WordRule("x") == NAME_ENTRY by {
      assert Lower("x")[0] == 'x';
    }
    assert Read(s, 0) == Emitted(IDENTIFIER, "x", 1);
    assert SpaceRun(s, 1) == 2;
    SkipSpace(s, 1);
    assert s[2..3] == "=";
    assert Read(s, 2) == Emitted(EQUAL_KIND, "=", 3);
    ParseOutcomeExact(s);
  }

  /** A statement with no "=" fails at the end of input. */
  lemma LoneIdentifier()
    ensures ParseOutcome("x") == ParseError(EQUAL_MSG)
  {
    assert Lower("x")[0] == 'x';
    LoneWord("x");
    ParseOutcomeExact("x");
  }

  /** print lexes as an Identifier, and the scanner then fails on "(",
      which no lexicon entry covers. */
  lemma PrintThenParenthesis()
    ensures ParseOutcome("print (a and b)") == ScanError(6)
  {
    var s := "print (a and b)";
    assert s[0..5] == "print";
    assert AlnumRun(s, 1) == 5;
    assert WordRule("print") == NAME_ENTRY by {
      assert Lower("print")[0] == 'p';
    }
    assert Read(s, 0) == Emitted(IDENTIFIER, "print", 5);
    assert SpaceRun(s, 5) == 6;
    SkipSpace(s, 5);
    assert Read(s, 6) == Unrecognized(6);
    assert Tokenize(s, 5) == Lexed([], Failed(6));
    ParseOutcomeExact(s);
  }

  /** The empty input is rejected: session requires a statement. */
  lemma EmptyRejected()
    ensures ParseOutcome("") == ParseError(SESSION_MSG)
  {
    ParseOutcomeExact("");
  }

  /** A stray character is a scanner error at its own offset. */
  lemma StrayCharacter()
    ensures ParseOutcome("@") == ScanError(0)
  {
    ParseOutcomeExact("@");
  }
}
