/** Splitting a file of SQL statements (benchmarks/scripts/run_longitudinal.py:369-412). */
module SqlSplit {
  import opened Common

  datatype Mode = Plain | Literal | Comment

  // ---- One scanner ---------------------------------------------------------------------

  /** Two dashes: a line comment starts here. */
  predicate Dashes(sql: string) {
    |sql| >= 2 && sql[0] == '-' && sql[1] == '-'
  }

  /** The mode after one character.  A quote toggles; the doubled quote that escapes one leaves
      the literal and enters it again. */
  function Step(sql: string, m: Mode): Mode
    requires sql != ""
  {
    match m
    case Literal => if sql[0] == '\'' then Plain else Literal
    case Comment => if sql[0] == '\n' then Plain else Comment
    case Plain => if sql[0] == '\'' then Literal else if Dashes(sql) then Comment else Plain
  }

  function EndMode(sql: string, m: Mode): Mode {
    if sql == "" then m else EndMode(sql[1..], Step(sql, m))
  }

  /** The text without its line comments; the newline that ends one stays. */
  function Uncomment(sql: string, m: Mode): string {
    if sql == "" then ""
    else (if Step(sql, m) == Comment then "" else [sql[0]]) + Uncomment(sql[1..], Step(sql, m))
  }

  /** The text cut at each ';' outside literals, `buf` being the beginning of the first piece. */
  function Pieces(buf: string, text: string, inLiteral: bool): seq<string>
    decreases |text|
  {
    if text == "" then [buf]
    else if text[0] == ';' && !inLiteral then [buf] + Pieces("", text[1..], false)
    else Pieces(buf + [text[0]], text[1..], inLiteral != (text[0] == '\''))
  }

  /** Python's str.isspace, for one character. */
  predicate IsSpace(c: char) {
    IsWhitespace(c) || '\U{1C}' <= c <= '\U{1F}'
  }

  function TrimStart(s: string): string {
    if s != "" && IsSpace(s[0]) then TrimStart(s[1..]) else s
  }

  function TrimEnd(s: string): string {
    if s != "" && IsSpace(s[|s| - 1]) then TrimEnd(s[..|s| - 1]) else s
  }

  function Strip(s: string): string {
    TrimEnd(TrimStart(s))
  }

  /** The pieces that are not blank, trimmed. */
  function Kept(pieces: seq<string>): seq<string> {
    if pieces == [] then []
    else (if Strip(pieces[0]) == "" then [] else [Strip(pieces[0])]) + Kept(pieces[1..])
  }

  function Statements(sql: string): seq<string> {
    Kept(Pieces("", Uncomment(sql, Plain), false))
  }

  // ---- The loop ------------------------------------------------------------------------

  function ModeOf(inLiteral: bool): Mode {
    if inLiteral then Literal else Plain
  }

  /** What the loop has still to add when it stands at `rest`. */
  function Remaining(buf: string, rest: string, inLiteral: bool): seq<string> {
    Kept(Pieces(buf, Uncomment(rest, ModeOf(inLiteral)), inLiteral))
  }

  lemma TakeChar(buf: string, rest: string, inLiteral: bool)
    requires rest != "" && (inLiteral || (rest[0] != ';' && !Dashes(rest)))
    ensures Remaining(buf, rest, inLiteral) == Remaining(buf + [rest[0]], rest[1..], inLiteral != (rest[0] == '\''))
  {
    var next := Uncomment(rest[1..], Step(rest, ModeOf(inLiteral)));
    assert Uncomment(rest, ModeOf(inLiteral)) == [rest[0]] + next;
    assert ([rest[0]] + next)[1..] == next;
  }

  lemma CutHere(buf: string, rest: string)
    requires rest != "" && rest[0] == ';'
    ensures Remaining(buf, rest, false)
        == (if Strip(buf) == "" then [] else [Strip(buf)]) + Remaining("", rest[1..], false)
  {
    var next := Uncomment(rest[1..], Plain);
    assert Uncomment(rest, Plain) == [';'] + next;
    assert ([';'] + next)[1..] == next;
  }

  /** A comment reaches to the next newline or the end. */
  method SkipLine(sql: string, i: nat) returns (j: nat)
    requires i < |sql| && Dashes(sql[i..])
    ensures i < j <= |sql| && (j < |sql| ==> sql[j] == '\n')
    ensures Uncomment(sql[i..], Plain) == Uncomment(sql[j..], Plain)
  {
    j := i + 1;
    assert sql[i..][1..] == sql[j..];
    assert Uncomment(sql[i..], Plain) == Uncomment(sql[j..], Comment);
    while j < |sql| && sql[j] != '\n'
      invariant i < j <= |sql|
      invariant Uncomment(sql[i..], Plain) == Uncomment(sql[j..], Comment)
    {
      assert sql[j..][1..] == sql[j + 1..];
      j := j + 1;
    }
  }

  lemma RemainingAtStart(sql: string)
    ensures Statements(sql) == Remaining("", sql[0..], false)
  {
    assert sql[0..] == sql;
  }

  lemma RemainingAtEnd(buf: string, inLiteral: bool)
    ensures Remaining(buf, "", inLiteral) == if Strip(buf) == "" then [] else [Strip(buf)]
  {
    assert [buf][1..] == [] && Uncomment("", ModeOf(inLiteral)) == "";
    assert Remaining(buf, "", inLiteral) == Kept([buf]);
  }

  method SplitStatements(sql: string) returns (stmts: seq<string>)
    ensures stmts == Statements(sql)
  {
    stmts := [];
    var buf, i, inStr := "", 0, false;
    RemainingAtStart(sql);
    hide Statements, Strip, Uncomment, Pieces, Kept;
    while i < |sql|
      invariant 0 <= i <= |sql|
      invariant Statements(sql) == stmts + Remaining(buf, sql[i..], inStr)
    {
      var ch := sql[i];
      assert sql[i..][0] == ch && sql[i..][1..] == sql[i + 1..];
      if inStr {
        TakeChar(buf, sql[i..], inStr);
        buf := buf + [ch];
        if ch == '\'' {
          if i + 1 < |sql| && sql[i + 1] == '\'' {
            TakeChar(buf, sql[i + 1..], false);
            assert sql[i + 1..][1..] == sql[i + 2..];
            buf := buf + [sql[i + 1]];
            i := i + 2;
            continue;
          }
          inStr := false;
        }
        i := i + 1;
        continue;
      }
      if ch == '\'' {
        TakeChar(buf, sql[i..], false);
        inStr := true;
        buf := buf + [ch];
      } else if ch == '-' && i + 1 < |sql| && sql[i + 1] == '-' {
        i := SkipLine(sql, i);
        continue;
      } else if ch == ';' {
        CutHere(buf, sql[i..]);
        var stmt := Strip(buf);
        if stmt != "" {
          stmts := stmts + [stmt];
        }
        buf := "";
      } else {
        TakeChar(buf, sql[i..], false);
        buf := buf + [ch];
      }
      i := i + 1;
    }
    assert sql[i..] == "";
    RemainingAtEnd(buf, inStr);
    var tail := Strip(buf);
    if tail != "" {
      stmts := stmts + [tail];
    }
  }

  // ---- Texts put together --------------------------------------------------------------

  lemma StepsJoin(a: string, b: string, m: Mode)
    requires a != "" && (b == "" || a[|a| - 1] != '-' || b[0] != '-' || EndMode(a, m) != Plain)
    ensures Step(a + b, m) == Step(a, m)
  {
    if |a| == 1 && m == Plain && a[0] == '-' {
      assert EndMode(a, m) == EndMode(a[1..], Plain) == Plain;
    }
  }

  lemma {:induction false} ModesJoin(a: string, b: string, m: Mode)
    requires a == "" || b == "" || a[|a| - 1] != '-' || b[0] != '-' || EndMode(a, m) != Plain
    ensures EndMode(a + b, m) == EndMode(b, EndMode(a, m))
    ensures Uncomment(a + b, m) == Uncomment(a, m) + Uncomment(b, EndMode(a, m))
    decreases |a|
  {
    if a == "" {
      assert a + b == b;
      assert "" + Uncomment(b, m) == Uncomment(b, m);
    } else {
      StepsJoin(a, b, m);
      hide Step, Dashes;
      var n := Step(a, m);
      UncommentUnfolds(a, m);
      UncommentUnfolds(a + b, m);
      assert (a + b)[1..] == a[1..] + b && (a + b)[0] == a[0];
      ModesJoin(a[1..], b, n);
      hide EndMode, Uncomment;
      Regrouped(if n == Comment then "" else [a[0]], Uncomment(a[1..], n), Uncomment(b, EndMode(a[1..], n)));
    }
  }

  lemma UncommentUnfolds(sql: string, m: Mode)
    requires sql != ""
    ensures Uncomment(sql, m) == (if Step(sql, m) == Comment then "" else [sql[0]]) + Uncomment(sql[1..], Step(sql, m))
    ensures EndMode(sql, m) == EndMode(sql[1..], Step(sql, m))
  {
  }

  /** Whether the end of a text is inside a literal. */
  function EndsInLiteral(text: string, inLiteral: bool): bool {
    if text == "" then inLiteral else EndsInLiteral(text[1..], inLiteral != (text[0] == '\''))
  }

  /** Comments aside, the scanner is a quote toggle. */
  lemma {:induction false} UncommentKeepsQuotes(sql: string, m: Mode)
    ensures EndsInLiteral(Uncomment(sql, m), m == Literal) <==> EndMode(sql, m) == Literal
  {
    if sql != "" {
      var n := Step(sql, m);
      UncommentKeepsQuotes(sql[1..], n);
      var kept := Uncomment(sql[1..], n);
      if n == Comment {
        assert "" + kept == kept;
      } else {
        assert ([sql[0]] + kept)[0] == sql[0] && ([sql[0]] + kept)[1..] == kept;
        assert (n == Literal) == ((m == Literal) != (sql[0] == '\''));
      }
    }
  }

  lemma {:induction false} PiecesAtCut(buf: string, a: string, b: string, inLiteral: bool)
    requires !EndsInLiteral(a, inLiteral)
    ensures Pieces(buf, a + ";" + b, inLiteral) == Pieces(buf, a, inLiteral) + Pieces("", b, false)
    decreases |a|
  {
    var text := a + ";" + b;
    if a == "" {
      assert text[0] == ';' && text[1..] == b;
    } else {
      assert text[0] == a[0] && text[1..] == a[1..] + ";" + b;
      if a[0] == ';' && !inLiteral {
        PiecesAtCut("", a[1..], b, false);
      } else {
        PiecesAtCut(buf + [a[0]], a[1..], b, inLiteral != (a[0] == '\''));
      }
    }
  }

  lemma {:induction false} KeptJoin(p: seq<string>, q: seq<string>)
    ensures Kept(p + q) == Kept(p) + Kept(q)
  {
    if p == [] {
      assert p + q == q;
    } else {
      assert (p + q)[1..] == p[1..] + q;
      KeptJoin(p[1..], q);
    }
  }

  /** A ';' that is neither in a literal nor in a comment separates, whatever stands around it. */
  lemma SplitsAtCut(a: string, b: string)
    requires EndMode(a, Plain) == Plain
    ensures Statements(a + ";" + b) == Statements(a) + Statements(b)
  {
    ModesJoin(a, ";" + b, Plain);
    assert a + (";" + b) == a + ";" + b;
    var ua, ub := Uncomment(a, Plain), Uncomment(b, Plain);
    assert (";" + b)[1..] == b;
    assert Uncomment(a + ";" + b, Plain) == ua + ";" + ub;
    UncommentKeepsQuotes(a, Plain);
    PiecesAtCut("", ua, ub, false);
    KeptJoin(Pieces("", ua, false), Pieces("", ub, false));
  }

  lemma {:induction false} CountPieces(buf: string, buf': string, text: string, inLiteral: bool)
    ensures |Pieces(buf, text, inLiteral)| == |Pieces(buf', text, inLiteral)|
    decreases |text|
  {
    if text != "" && !(text[0] == ';' && !inLiteral) {
      CountPieces(buf + [text[0]], buf' + [text[0]], text[1..], inLiteral != (text[0] == '\''));
    }
  }

  lemma {:induction false} PiecesInLiteral(buf: string, a: string, b: string, inLiteral: bool)
    requires EndsInLiteral(a, inLiteral)
    ensures |Pieces(buf, a + ";" + b, inLiteral)| == |Pieces(buf, a + b, inLiteral)|
    decreases |a|
  {
    var text := a + ";" + b;
    if a == "" {
      assert text[0] == ';' && text[1..] == b && a + b == b;
      CountPieces(buf + [';'], buf, b, inLiteral);
    } else {
      assert text[0] == a[0] && text[1..] == a[1..] + ";" + b && (a + b)[1..] == a[1..] + b;
      if a[0] == ';' && !inLiteral {
        PiecesInLiteral("", a[1..], b, false);
      } else {
        PiecesInLiteral(buf + [a[0]], a[1..], b, inLiteral != (a[0] == '\''));
      }
    }
  }

  /** One that is in a literal or in a comment separates nothing. */
  lemma HiddenCut(a: string, b: string)
    requires EndMode(a, Plain) != Plain
    ensures |Pieces("", Uncomment(a + ";" + b, Plain), false)| == |Pieces("", Uncomment(a + b, Plain), false)|
  {
    var m := EndMode(a, Plain);
    ModesJoin(a, b, Plain);
    ModesJoin(a, ";" + b, Plain);
    assert a + (";" + b) == a + ";" + b && (";" + b)[1..] == b;
    var ua, ub := Uncomment(a, Plain), Uncomment(b, m);
    if m == Literal {
      UncommentKeepsQuotes(a, Plain);
      assert ua + (";" + ub) == ua + ";" + ub;
      PiecesInLiteral("", ua, ub, false);
    } else {
      assert "" + ub == ub;
    }
  }

  /** A line comment, put in where the text is plain and the last character is not a dash, changes
      nothing. */
  lemma CommentIsInvisible(a: string, comment: string, b: string)
    requires EndMode(a, Plain) == Plain && (a == "" || a[|a| - 1] != '-') && '\n' !in comment
    ensures Uncomment(a + "--" + comment + "\n" + b, Plain) == Uncomment(a + "\n" + b, Plain)
  {
    var rest := "\n" + b;
    var tail := "-" + comment + rest;
    ModesJoin(a, rest, Plain);
    ModesJoin(a, "-" + tail, Plain);
    assert a + "--" + comment + "\n" + b == a + ("-" + tail) && a + "\n" + b == a + rest;
    assert ("-" + tail)[1..] == tail && Dashes("-" + tail);
    assert "" + Uncomment(tail, Comment) == Uncomment(tail, Comment);
    CommentSkipped("-" + comment, rest);
    assert ("-" + comment) + rest == tail;
    assert Uncomment(rest, Comment) == Uncomment(rest, Plain);
  }

  lemma {:induction false} CommentSkipped(comment: string, rest: string)
    requires '\n' !in comment
    ensures Uncomment(comment + rest, Comment) == Uncomment(rest, Comment)
  {
    if comment == "" {
      assert comment + rest == rest;
    } else {
      assert (comment + rest)[1..] == comment[1..] + rest;
      CommentSkipped(comment[1..], rest);
    }
  }

  // ---- Nothing else is lost ------------------------------------------------------------

  /** The pieces, joined again, are the text. */
  lemma {:induction false} PiecesConserve(buf: string, text: string, inLiteral: bool)
    ensures Pieces(buf, text, inLiteral) != [] && Join(";", Pieces(buf, text, inLiteral)) == buf + text
    decreases |text|
  {
    if text == "" {
      assert buf + text == buf;
    } else if text[0] == ';' && !inLiteral {
      var rest := Pieces("", text[1..], false);
      PiecesConserve("", text[1..], false);
      assert ([buf] + rest)[1..] == rest;
      assert buf + ";" + ("" + text[1..]) == buf + text;
    } else {
      PiecesConserve(buf + [text[0]], text[1..], inLiteral != (text[0] == '\''));
      assert buf + [text[0]] + text[1..] == buf + text;
    }
  }

  /** The characters inside literals, quotes included. */
  function LiteralText(sql: string, m: Mode): string {
    if sql == "" then ""
    else (if m == Literal || Step(sql, m) == Literal then [sql[0]] else "") + LiteralText(sql[1..], Step(sql, m))
  }

  /** Taking comments out brings no two dashes together. */
  lemma StepSurvives(sql: string, m: Mode)
    requires sql != "" && Step(sql, m) != Comment
    ensures Step(Uncomment(sql, m), if m == Literal then Literal else Plain) == Step(sql, m)
  {
    var kept := Uncomment(sql[1..], Step(sql, m));
    var text := [sql[0]] + kept;
    assert Uncomment(sql, m) == text && text[0] == sql[0];
    if m == Plain && sql[0] == '-' && |sql| > 1 {
      UncommentUnfolds(sql[1..], Plain);
      assert sql[1..][0] == sql[1] != '-' && kept[0] == sql[1];
    }
  }

  lemma {:induction false} LiteralsAreKept(sql: string, m: Mode)
    ensures LiteralText(Uncomment(sql, m), if m == Literal then Literal else Plain) == LiteralText(sql, m)
  {
    if sql != "" {
      var n := Step(sql, m);
      var kept := Uncomment(sql[1..], n);
      LiteralsAreKept(sql[1..], n);
      if n == Comment {
        assert "" + kept == kept && "" + LiteralText(sql[1..], n) == LiteralText(sql[1..], n);
      } else {
        StepSurvives(sql, m);
        var text := [sql[0]] + kept;
        assert Uncomment(sql, m) == text && text[0] == sql[0] && text[1..] == kept;
        hide Uncomment, Dashes;
      }
    }
  }

  /** Uncommented text has no comments left. */
  lemma {:induction false} UncommentIsIdempotent(sql: string, m: Mode)
    ensures var text := Uncomment(sql, m); Uncomment(text, if m == Literal then Literal else Plain) == text
  {
    if sql != "" {
      var n := Step(sql, m);
      var kept := Uncomment(sql[1..], n);
      UncommentIsIdempotent(sql[1..], n);
      if n == Comment {
        assert "" + kept == kept;
      } else {
        StepSurvives(sql, m);
        var text := [sql[0]] + kept;
        assert Uncomment(sql, m) == text && text[0] == sql[0] && text[1..] == kept;
        assert Uncomment(text, if m == Literal then Literal else Plain) == [text[0]] + Uncomment(kept, n);
      }
    }
  }

  // ---- Round trip ----------------------------------------------------------------------

  /** Quotes balanced, and neither ';' nor '--' outside literals. */
  predicate Clean(text: string, inLiteral: bool) {
    if text == "" then !inLiteral
    else (inLiteral || (text[0] != ';' && !Dashes(text))) && Clean(text[1..], inLiteral != (text[0] == '\''))
  }

  predicate IsStatement(s: string) {
    Clean(s, false) && s != "" && Strip(s) == s
  }

  lemma {:induction false} CleanIsOnePiece(buf: string, text: string, inLiteral: bool)
    requires Clean(text, inLiteral)
    ensures EndMode(text, ModeOf(inLiteral)) == Plain && Uncomment(text, ModeOf(inLiteral)) == text
    ensures Pieces(buf, text, inLiteral) == [buf + text]
    decreases |text|
  {
    if text == "" {
      assert buf + text == buf;
    } else {
      CleanIsOnePiece(buf + [text[0]], text[1..], inLiteral != (text[0] == '\''));
      assert buf + [text[0]] + text[1..] == buf + text && [text[0]] + text[1..] == text;
    }
  }

  lemma CleanAlone(text: string)
    requires Clean(text, false)
    ensures Pieces("", text, false) == [text] && Uncomment(text, Plain) == text && EndMode(text, Plain) == Plain
  {
    CleanIsOnePiece("", text, false);
    assert "" + text == text;
  }

  lemma StatementAlone(s: string)
    requires IsStatement(s)
    ensures Statements(s) == [s] && EndMode(s, Plain) == Plain
  {
    CleanAlone(s);
    hide Pieces, Uncomment, EndMode, Clean, TrimStart, TrimEnd;
    assert Statements(s) == Kept([s]);
    assert [s][1..] == [] && Kept([]) == [];
    assert Kept([s]) == [Strip(s)] + Kept([s][1..]);
  }

  /** Splitting undoes joining. */
  lemma {:induction false} SplitUndoesJoin(stmts: seq<string>)
    requires forall s :: s in stmts ==> IsStatement(s)
    ensures Statements(Join(";", stmts)) == stmts
  {
    if stmts == [] {
      assert Strip("") == "" && [""][1..] == [];
    } else {
      assert stmts[0] in stmts;
      StatementAlone(stmts[0]);
      hide Statements, IsStatement;
      if |stmts| > 1 {
        SplitsAtCut(stmts[0], Join(";", stmts[1..]));
        SplitUndoesJoin(stmts[1..]);
      }
      assert stmts == [stmts[0]] + stmts[1..];
    }
  }

  lemma {:induction false} TrimStartKeepsClean(s: string)
    requires Clean(s, false)
    ensures Clean(TrimStart(s), false)
    ensures TrimStart(s) == "" || !IsSpace(TrimStart(s)[0])
  {
    if s != "" && IsSpace(s[0]) { TrimStartKeepsClean(s[1..]); }
  }

  /** Space at the end of a balanced text is outside its literals. */
  lemma {:induction false} CleanBeforeSpace(s: string, inLiteral: bool)
    requires s != "" && IsSpace(s[|s| - 1]) && Clean(s, inLiteral)
    ensures Clean(s[..|s| - 1], inLiteral)
    decreases |s|
  {
    var t := s[..|s| - 1];
    if |s| == 1 {
      assert s[1..] == "";
    } else {
      CleanBeforeSpace(s[1..], inLiteral != (s[0] == '\''));
      assert s[1..][..|s[1..]| - 1] == t[1..] && t[0] == s[0];
      assert Dashes(t) ==> Dashes(s);
    }
  }

  lemma {:induction false} TrimEndKeepsClean(s: string)
    requires Clean(s, false)
    ensures Clean(TrimEnd(s), false)
    ensures TrimEnd(s) == "" || !IsSpace(TrimEnd(s)[|TrimEnd(s)| - 1])
    ensures TrimEnd(s) <= s
  {
    if s != "" && IsSpace(s[|s| - 1]) {
      CleanBeforeSpace(s, false);
      TrimEndKeepsClean(s[..|s| - 1]);
    }
  }

  lemma StripIsStatement(s: string)
    requires Clean(s, false) && Strip(s) != ""
    ensures IsStatement(Strip(s))
  {
    TrimStartKeepsClean(s);
    TrimEndKeepsClean(TrimStart(s));
  }

  lemma {:induction false} KeptAreStatements(pieces: seq<string>)
    requires forall p :: p in pieces ==> Clean(p, false)
    ensures forall s :: s in Kept(pieces) ==> IsStatement(s)
  {
    if pieces != [] {
      KeptAreStatements(pieces[1..]);
      if Strip(pieces[0]) != "" { StripIsStatement(pieces[0]); }
    }
  }

  /** Where the first ';' outside literals is, or the length of the text. */
  function FirstCut(text: string, inLiteral: bool): (k: nat)
    ensures k <= |text| && (k < |text| ==> text[k] == ';')
  {
    if text == "" || (text[0] == ';' && !inLiteral) then 0 else 1 + FirstCut(text[1..], inLiteral != (text[0] == '\''))
  }

  lemma {:induction false} UncommentShortens(sql: string, m: Mode)
    ensures |Uncomment(sql, m)| <= |sql|
    ensures sql != "" && Uncomment(sql, m) == sql ==>
        Step(sql, m) != Comment && Uncomment(sql[1..], Step(sql, m)) == sql[1..]
  {
    if sql != "" {
      UncommentShortens(sql[1..], Step(sql, m));
      var kept := Uncomment(sql[1..], Step(sql, m));
      assert Step(sql, m) != Comment ==> ([sql[0]] + kept)[1..] == kept;
    }
  }

  lemma {:induction false} CleanToCut(text: string, inLiteral: bool)
    requires Uncomment(text, ModeOf(inLiteral)) == text && !EndsInLiteral(text, inLiteral)
    ensures Clean(text[..FirstCut(text, inLiteral)], inLiteral)
  {
    var k := FirstCut(text, inLiteral);
    if k > 0 {
      UncommentShortens(text, ModeOf(inLiteral));
      assert inLiteral || (text[0] != ';' && !Dashes(text));
      CleanToCut(text[1..], inLiteral != (text[0] == '\''));
      hide Uncomment, EndsInLiteral, FirstCut;
      var head := text[..k];
      assert head[0] == text[0] && head[1..] == text[1..][..k - 1];
    }
  }

  lemma CutUncommented(a: string, b: string)
    requires Uncomment(a, Plain) == a && EndMode(a, Plain) == Plain && Uncomment(a + (";" + b), Plain) == a + (";" + b)
    ensures Uncomment(b, Plain) == b && EndMode(a + (";" + b), Plain) == EndMode(b, Plain)
  {
    ModesJoin(a, ";" + b, Plain);
    UncommentUnfolds(";" + b, Plain);
    assert (";" + b)[1..] == b;
    var u := Uncomment(b, Plain);
    hide Uncomment, EndMode;
    assert (a + (";" + b))[|a| + 1..] == b && (a + (";" + u))[|a| + 1..] == u;
  }

  lemma CutIntoPieces(a: string, b: string)
    requires Clean(a, false)
    ensures Pieces("", a + (";" + b), false) == [a] + Pieces("", b, false)
  {
    CleanAlone(a);
    UncommentKeepsQuotes(a, Plain);
    PiecesAtCut("", a, b, false);
    hide Pieces, Clean, EndsInLiteral, Uncomment, EndMode;
    Regrouped(a, ";", b);
  }

  /** Balanced, uncommented text, cut at its first ';' outside literals. */
  lemma CutApart(text: string, a: string, b: string)
    requires Uncomment(text, Plain) == text && !EndsInLiteral(text, false) && text == a + (";" + b) && Clean(a, false)
    ensures Uncomment(b, Plain) == b && !EndsInLiteral(b, false)
    ensures Pieces("", text, false) == [a] + Pieces("", b, false)
  {
    hide *;
    CleanAlone(a);
    CutIntoPieces(a, b);
    CutUncommented(a, b);
    UncommentKeepsQuotes(text, Plain);
    UncommentKeepsQuotes(b, Plain);
  }

  lemma {:induction false} PiecesAreClean(text: string)
    requires Uncomment(text, Plain) == text && !EndsInLiteral(text, false)
    ensures forall p :: p in Pieces("", text, false) ==> Clean(p, false)
    decreases |text|
  {
    var k := FirstCut(text, false);
    var a := text[..k];
    CleanToCut(text, false);
    if k == |text| {
      CleanAlone(a);
      assert a == text;
    } else {
      var b := text[k + 1..];
      assert text == a + (";" + b);
      CutApart(text, a, b);
      PiecesAreClean(b);
    }
  }

  /** Unless the file ends inside a literal, what splitting yields are statements; joining and
      splitting them again changes nothing. */
  lemma SplitYieldsStatements(sql: string)
    requires EndMode(sql, Plain) != Literal
    ensures forall s :: s in Statements(sql) ==> IsStatement(s)
    ensures Statements(Join(";", Statements(sql))) == Statements(sql)
  {
    var text := Uncomment(sql, Plain);
    UncommentIsIdempotent(sql, Plain);
    UncommentKeepsQuotes(sql, Plain);
    PiecesAreClean(text);
    KeptAreStatements(Pieces("", text, false));
    SplitUndoesJoin(Statements(sql));
  }

  // ---- Exactly when --------------------------------------------------------------------

  lemma {:induction false} LastPieceIsOpen(buf: string, text: string, inLiteral: bool)
    requires EndsInLiteral(buf, false) == inLiteral
    ensures var ps := Pieces(buf, text, inLiteral);
      ps != [] && EndsInLiteral(ps[|ps| - 1], false) == EndsInLiteral(text, inLiteral)
    decreases |text|
  {
    if text != "" {
      if text[0] == ';' && !inLiteral {
        LastPieceIsOpen("", text[1..], false);
      } else {
        QuotesJoin(buf, [text[0]], false);
        assert [text[0]][1..] == "" && [text[0]][0] == text[0];
        LastPieceIsOpen(buf + [text[0]], text[1..], inLiteral != (text[0] == '\''));
      }
    }
  }

  lemma {:induction false} QuotesJoin(a: string, b: string, inLiteral: bool)
    ensures EndsInLiteral(a + b, inLiteral) == EndsInLiteral(b, EndsInLiteral(a, inLiteral))
  {
    if a == "" {
      assert a + b == b;
    } else {
      assert (a + b)[1..] == a[1..] + b;
      QuotesJoin(a[1..], b, inLiteral != (a[0] == '\''));
    }
  }

  lemma {:induction false} TrimStartKeepsQuotes(s: string)
    ensures EndsInLiteral(TrimStart(s), false) == EndsInLiteral(s, false)
  {
    if s != "" && IsSpace(s[0]) { TrimStartKeepsQuotes(s[1..]); }
  }

  lemma {:induction false} TrimEndKeepsQuotes(s: string)
    ensures EndsInLiteral(TrimEnd(s), false) == EndsInLiteral(s, false)
  {
    if s != "" && IsSpace(s[|s| - 1]) {
      var n := |s| - 1;
      QuotesJoin(s[..n], [s[n]], false);
      assert s == s[..n] + [s[n]] && [s[n]][1..] == "";
      TrimEndKeepsQuotes(s[..n]);
    }
  }

  lemma {:induction false} CleanIsClosed(s: string, inLiteral: bool)
    requires Clean(s, inLiteral)
    ensures !EndsInLiteral(s, inLiteral)
  {
    if s != "" { CleanIsClosed(s[1..], inLiteral != (s[0] == '\'')); }
  }

  lemma {:induction false} LastIsKept(pieces: seq<string>)
    requires pieces != [] && Strip(pieces[|pieces| - 1]) != ""
    ensures Strip(pieces[|pieces| - 1]) in Kept(pieces)
  {
    if |pieces| > 1 { LastIsKept(pieces[1..]); }
  }

  /** Every result of splitting is a statement if and only if the file does not end inside a
      literal. */
  lemma SplitYieldsStatementsIff(sql: string)
    ensures (forall s :: s in Statements(sql) ==> IsStatement(s)) <==> EndMode(sql, Plain) != Literal
  {
    if EndMode(sql, Plain) == Literal {
      var text := Uncomment(sql, Plain);
      var ps := Pieces("", text, false);
      UncommentKeepsQuotes(sql, Plain);
      LastPieceIsOpen("", text, false);
      var last := ps[|ps| - 1];
      TrimStartKeepsQuotes(last);
      TrimEndKeepsQuotes(TrimStart(last));
      LastIsKept(ps);
      if IsStatement(Strip(last)) { CleanIsClosed(Strip(last), false); }
    } else {
      SplitYieldsStatements(sql);
    }
  }

  // ---- In terms of the characters ------------------------------------------------------

  /** Text with no quote, no semicolon and no two dashes. */
  predicate IsUnmarked(s: string) {
    && '\'' !in s && ';' !in s
    && forall i :: 0 <= i < |s| - 1 ==> !(s[i] == '-' && s[i + 1] == '-')
  }

  /** The inside of a literal that says `s`: each quote is written twice. */
  function Doubled(s: string): string {
    if s == "" then "" else (if s[0] == '\'' then "\'\'" else [s[0]]) + Doubled(s[1..])
  }

  /** A statement of unmarked text around a literal that says anything at all. */
  function WithLiteral(before: string, said: string, after: string): string {
    before + ("\'" + (Doubled(said) + ("\'" + after)))
  }

  lemma {:induction false} UnmarkedIsClean(s: string, rest: string)
    requires IsUnmarked(s) && Clean(rest, false) && (rest == "" || rest[0] != '-')
    ensures Clean(s + rest, false)
  {
    if s == "" {
      assert s + rest == rest;
    } else {
      assert s[0] in s && forall c :: c in s[1..] ==> c in s;
      assert (s + rest)[1..] == s[1..] + rest;
      UnmarkedIsClean(s[1..], rest);
      if |s| > 1 { assert (s + rest)[1] == s[1]; }
    }
  }

  lemma {:induction false} DoubledIsClean(said: string, rest: string)
    requires Clean(rest, false)
    ensures Clean(Doubled(said) + ("\'" + rest), true)
  {
    var tail := "\'" + rest;
    assert tail[1..] == rest;
    if said == "" {
      assert Doubled(said) + tail == tail;
    } else {
      DoubledIsClean(said[1..], rest);
      var next := Doubled(said[1..]) + tail;
      if said[0] == '\'' {
        assert Doubled(said) + tail == "\'" + ("\'" + next);
        assert ("\'" + next)[1..] == next && ("\'" + ("\'" + next))[1..] == "\'" + next;
      } else {
        assert Doubled(said) + tail == [said[0]] + next;
        assert ([said[0]] + next)[1..] == next;
      }
    }
  }

  lemma WithLiteralIsClean(before: string, said: string, after: string)
    requires IsUnmarked(before) && IsUnmarked(after)
    ensures Clean(WithLiteral(before, said, after), false)
  {
    UnmarkedIsClean(after, "");
    assert after + "" == after;
    DoubledIsClean(said, after);
    var quoted := "\'" + (Doubled(said) + ("\'" + after));
    assert quoted[1..] == Doubled(said) + ("\'" + after);
    UnmarkedIsClean(before, quoted);
  }

  /** Whatever a literal says, quotes, semicolons, dashes and newlines included, it is part of one
      statement, and the semicolon after it ends that. */
  lemma LiteralIsOpaque(before: string, said: string, after: string, rest: string)
    requires IsUnmarked(before) && IsUnmarked(after)
    ensures var stmt := WithLiteral(before, said, after);
      Statements(stmt + ";" + rest) == [Strip(stmt)] + Statements(rest)
  {
    var stmt := WithLiteral(before, said, after);
    WithLiteralIsClean(before, said, after);
    CleanAlone(stmt);
    SplitsAtCut(stmt, rest);
    assert '\'' in stmt by { assert stmt[|before|] == '\''; }
    StripIs(stmt);
    hide Strip, Clean, Doubled, WithLiteral;
    KeptAlone(stmt);
  }

  lemma KeptAlone(piece: string)
    requires Strip(piece) != ""
    ensures Kept([piece]) == [Strip(piece)]
  {
    assert [piece][1..] == [];
  }

  /** A line comment after unmarked text is as if it were not there. */
  lemma CommentAfterText(before: string, comment: string, rest: string)
    requires IsUnmarked(before) && (before == "" || before[|before| - 1] != '-') && '\n' !in comment
    ensures Statements(before + "--" + comment + "\n" + rest) == Statements(before + "\n" + rest)
  {
    UnmarkedIsClean(before, "");
    assert before + "" == before;
    CleanAlone(before);
    CommentIsInvisible(before, comment, rest);
  }

  lemma {:induction false} TrimStartIs(s: string)
    ensures |TrimStart(s)| <= |s| && TrimStart(s) == s[|s| - |TrimStart(s)|..]
    ensures forall i :: 0 <= i < |s| - |TrimStart(s)| ==> IsSpace(s[i])
    ensures TrimStart(s) == "" || !IsSpace(TrimStart(s)[0])
  {
    if s != "" && IsSpace(s[0]) {
      TrimStartIs(s[1..]);
      hide IsSpace;
      var n := |s[1..]| - |TrimStart(s[1..])|;
      assert s[1..][n..] == s[n + 1..];
      forall i | 0 < i < n + 1 ensures IsSpace(s[i]) {
        assert s[i] == s[1..][i - 1];
      }
    }
  }

  lemma {:induction false} TrimEndIs(s: string)
    ensures TrimEnd(s) <= s && forall i :: |TrimEnd(s)| <= i < |s| ==> IsSpace(s[i])
    ensures TrimEnd(s) == "" || !IsSpace(TrimEnd(s)[|TrimEnd(s)| - 1])
  {
    if s != "" && IsSpace(s[|s| - 1]) { TrimEndIs(s[..|s| - 1]); }
  }

  /** Trimming takes off space at both ends, all of it, and nothing else. */
  lemma StripIs(s: string)
    ensures exists i, j ::
      0 <= i <= j <= |s| && Strip(s) == s[i..j] && forall k :: 0 <= k < i || j <= k < |s| ==> IsSpace(s[k])
    ensures Strip(s) == "" || (!IsSpace(Strip(s)[0]) && !IsSpace(Strip(s)[|Strip(s)| - 1]))
    ensures '\'' in s ==> Strip(s) != ""
  {
    TrimStartIs(s);
    TrimEndIs(TrimStart(s));
    var i, j := |s| - |TrimStart(s)|, |s| - |TrimStart(s)| + |Strip(s)|;
    assert Strip(s) == s[i..j];
    forall k | 0 <= k < i || j <= k < |s| ensures IsSpace(s[k]) {
      if k >= j { assert s[k] == TrimStart(s)[k - i]; }
    }
    if '\'' in s {
      var k :| 0 <= k < |s| && s[k] == '\'';
      assert !IsSpace('\'');
    }
  }

  /** Space, among the ASCII characters. */
  lemma AsciiSpaces(c: char)
    requires c as int < 128
    ensures IsSpace(c) <==> 9 <= c as int <= 13 || 28 <= c as int <= 32
    ensures IsWhitespace(c) <==> 9 <= c as int <= 13 || c as int == 32
  {
  }
}
