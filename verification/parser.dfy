/** MyParser: the one-token-lookahead recursive-descent recognizer.

    Its state is the scanner (the input text and the scanner's offset in
    it) and the lookahead pair la/val.  Each procedure inspects la, calls
    match to consume it and read the next token, and calls the next
    procedure.  A raised exception is modelled as the returned Outcome:
    every procedure returns at once with the first ParseError or scanner
    error it meets, as nothing in the class catches them.
 */
module Parser {
  import opened Lexicon
  import opened Recognition

  /** The lookahead kind: a kind string, or EOF where read() gives None. */
  datatype Lookahead = Kind(name: string) | EOF

  /** How a lookahead prints inside a ParseError message. */
  function Show(t: Lookahead): (r: string)
    ensures r == "None" <==> t == EOF || t == Kind("None")
  {
    match t
    case Kind(n) => n
    case EOF => "None"
  }

  class MyParser {
    var input: string   // the text the scanner reads
    var cursor: nat     // the scanner's offset in input
    var la: Lookahead   // the kind of the lookahead token
    var val: string     // the text of the lookahead token

    /** The scanner offset is within the input, and once the end of input
        has been read the scanner stays at the end. */
    ghost predicate Valid()
      reads this
    {
      cursor <= |input| && (la == EOF ==> cursor == |input|)
    }

    /** The kinds the parser will meet from here on, the lookahead first. */
    ghost function Upcoming(): Stream
      reads this
      requires Valid()
    {
      if la == EOF then Stream([], Finished)
      else
        var t := Tokenize(input, cursor);
        Stream([la.name] + KindsOf(t.tokens), t.end)
    }

    /** What is left to consume: bounds the depth of the recursion. */
    ghost function Pending(): nat
      reads this
      requires Valid()
    {
      |input| - cursor + (if la == EOF then 0 else 1)
    }

    /** next_token: the scanner's read() from the current offset. */
    method NextToken() returns (r: ReadResult)
      requires cursor <= |input|
      modifies this`cursor
      ensures r == Read(input, old(cursor))
      ensures cursor == match r
        case Emitted(_, _, next) => next
        case Exhausted(next) => next
        case Unrecognized(at) => at
    {
      r := Read(input, cursor);
      match r
      case Emitted(_, _, next) => cursor := next;
      case Exhausted(next) => cursor := next;
      case Unrecognized(at) => cursor := at;
    }

    /** create_scanner: start scanning fp and read the first lookahead. */
    method CreateScanner(fp: string) returns (o: Outcome)
      modifies this
      ensures input == fp
      ensures o == Ok || o.ScanError?
      ensures o == Ok ==> Valid() && Upcoming() == StreamOf(Tokenize(fp, 0))
      ensures o.ScanError? ==> Tokenize(fp, 0) == Lexed([], Failed(o.at))
      ensures o == Ok && Tokenize(fp, 0).tokens != [] ==> val == Tokenize(fp, 0).tokens[0].text
      ensures o == Ok && Tokenize(fp, 0).tokens == [] ==> val == ""
    {
      input := fp;
      cursor := 0;
      StreamStep(fp, 0);
      var r := NextToken();
      match r
      case Emitted(kind, text, _) =>
        la, val := Kind(kind), text;
        o := Ok;
      case Exhausted(_) =>
        la, val := EOF, "";
        o := Ok;
      case Unrecognized(at) =>
        o := ScanError(at);
    }

    /** match: consume the lookahead if it is t and read the next one;
        otherwise raise "found {la} instead of {t}" and change nothing. */
    method Match(t: Lookahead) returns (o: Outcome)
      requires Valid()
      modifies this
      ensures Valid() && input == old(input)
      ensures old(la) != t ==>
        o == ParseError("found " + Show(old(la)) + " instead of " + Show(t))
        && la == old(la) && val == old(val) && cursor == old(cursor)
      ensures old(la) == t ==> match Read(input, old(cursor))
        case Emitted(kind, text, next) => o == Ok && la == Kind(kind) && val == text && cursor == next
        case Exhausted(next) => o == Ok && la == EOF && val == "" && cursor == next
        case Unrecognized(at) => o == ScanError(at) && la == old(la) && val == old(val) && cursor == at
      ensures old(la) == t && t != EOF ==>
        var before := old(Upcoming());
        if Unreadable(Rest(before)) then o == ScanError(before.end.at)
        else o == Ok && Upcoming() == Rest(before) && Pending() < old(Pending())
    {
      if la == t {
        ghost var before := Upcoming();
        StreamStep(input, cursor);
        var r := NextToken();
        match r
        case Emitted(kind, text, next) =>
          la, val := Kind(kind), text;
          o := Ok;
        case Exhausted(_) =>
          la, val := EOF, "";
          o := Ok;
        case Unrecognized(at) =>
          o := ScanError(at);
      } else {
        o := ParseError("found " + Show(la) + " instead of " + Show(t));
      }
    }

    /** session: an Identifier is consumed and equalSign follows; "print"
        is consumed and session returns; anything else is an error. */
    method Session() returns (o: Outcome)
      requires Valid()
      modifies this
      ensures Valid() && input == old(input)
      ensures o == SessionOutcome(old(Upcoming()))
      ensures o == Ok ==> old(Upcoming()).kinds != [] && Upcoming() == Rest(old(Upcoming()))
    {
      if la == Kind(IDENTIFIER) {
        o := Match(la);
        if o != Ok {
          return;
        }
        o := EqualSign();
      } else if la == Kind(PRINT_WANTED) {
        o := Match(la);
      } else {
        o := ParseError(SESSION_MSG);
      }
    }

    /** logical: not, or, and is consumed and identifier follows. */
    method Logical() returns (o: Outcome)
      requires Valid()
      modifies this
      ensures Valid() && input == old(input)
      ensures o == ChainOutcome(old(Upcoming()), false)
      decreases Pending()
    {
      ghost var before := Upcoming();
      if la == Kind(NOT_KIND) || (la == Kind(OR_KIND) || la == Kind(AND_KIND)) {
        ChainStep(before, false);
        o := Match(la);
        if o != Ok {
          return;
        }
        o := Identifier();
      } else {
        o := ParseError(OPERATOR_MSG);
      }
    }

    /** identifier: an Identifier or a boolean literal is consumed and
        logical follows. */
    method Identifier() returns (o: Outcome)
      requires Valid()
      modifies this
      ensures Valid() && input == old(input)
      ensures o == ChainOutcome(old(Upcoming()), true)
      decreases Pending()
    {
      ghost var before := Upcoming();
      if la == Kind(IDENTIFIER) {
        ChainStep(before, true);
        o := Match(la);
        if o != Ok {
          return;
        }
        o := Logical();
      } else if la == Kind(TRUE_KIND) || la == Kind(FALSE_KIND) {
        ChainStep(before, true);
        o := Match(la);
        if o != Ok {
          return;
        }
        o := Logical();
      } else {
        o := ParseError(OPERAND_MSG);
      }
    }

    /** equalSign: a lookahead of kind "equalSign" is consumed and
        identifier follows; anything else is an error. */
    method EqualSign() returns (o: Outcome)
      requires Valid()
      modifies this
      ensures Valid() && input == old(input)
      ensures o == EqualSignOutcome(old(Upcoming()))
    {
      if la == Kind(EQUAL_SIGN_WANTED) {
        o := Match(la);
        if o != Ok {
          return;
        }
        o := Identifier();
      } else {
        o := ParseError(EQUAL_MSG);
      }
    }

    /** parse: create the scanner for fp, then call session.  It never
        returns normally. */
    method Parse(fp: string) returns (o: Outcome)
      modifies this
      ensures input == fp
      ensures o == ParseOutcome(fp)
      ensures o != Ok
    {
      o := CreateScanner(fp);
      if o != Ok {
        return;
      }
      o := Session();
      NoInputAccepted(fp);
    }
  }
}
