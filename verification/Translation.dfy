/** Translating a chat request for Anthropic (src/providers.rs:115-165): system messages lifted out,
    and consecutive messages of one role merged. */
module Translation {
  import opened Common

  datatype Message = Message(role: string, text: string)

  datatype Role = User | Assistant

  datatype Turn = Turn(role: Role, text: string)

  /** A float may be infinite or not a number. */
  datatype Float = Finite(value: real) | NotFinite

  datatype Request = Request(model: string, messages: seq<Message>, maxTokens: Option<nat>, temperature: Option<Float>,
                             stream: Option<bool>)

  /** `system`, `temperature` and `stream` are left out of the body when None and false. */
  datatype Body = Body(model: string, messages: seq<Turn>, maxTokens: nat, system: Option<string>,
                       temperature: Option<real>, stream: bool)

  function RoleOf(m: Message): Role {
    if m.role == "assistant" then Assistant else User
  }

  function Turns(messages: seq<Message>): seq<Turn> {
    if messages == [] then []
    else if messages[0].role == "system" then Turns(messages[1..])
    else [Turn(RoleOf(messages[0]), messages[0].text)] + Turns(messages[1..])
  }

  function SystemTexts(messages: seq<Message>): seq<string> {
    if messages == [] then []
    else (if messages[0].role == "system" then [messages[0].text] else []) + SystemTexts(messages[1..])
  }

  const GAP := "\n\n"

  function Texts(turns: seq<Turn>): seq<string> {
    seq(|turns|, i requires 0 <= i < |turns| => turns[i].text)
  }

  // ---- Maximal runs --------------------------------------------------------------------

  function Flatten<T>(runs: seq<seq<T>>): seq<T> {
    if runs == [] then [] else runs[0] + Flatten(runs[1..])
  }

  /** The turns cut into runs of one role, neighbouring runs being of different roles. */
  ghost predicate IsRuns(runs: seq<seq<Turn>>) {
    && (forall i :: 0 <= i < |runs| ==> runs[i] != [])
    && (forall i, k :: 0 <= i < |runs| && 0 <= k < |runs[i]| ==> runs[i][k].role == runs[i][0].role)
    && (forall i :: 0 <= i < |runs| - 1 ==> runs[i][0].role != runs[i + 1][0].role)
  }

  function Merged(run: seq<Turn>): Turn
    requires run != []
  {
    Turn(run[0].role, Join(GAP, Texts(run)))
  }

  ghost predicate Alternates(turns: seq<Turn>) {
    forall i :: 0 <= i < |turns| - 1 ==> turns[i].role != turns[i + 1].role
  }

  /** `out` has one turn for each maximal run of `turns`, in order, joining its texts. */
  ghost predicate Translates(turns: seq<Turn>, runs: seq<seq<Turn>>, out: seq<Turn>) {
    && IsRuns(runs) && Flatten(runs) == turns
    && |out| == |runs| && forall i :: 0 <= i < |out| ==> out[i] == Merged(runs[i])
  }

  // ---- The loop ------------------------------------------------------------------------

  lemma {:induction false} FlattenJoin<T>(a: seq<seq<T>>, b: seq<seq<T>>)
    ensures Flatten(a + b) == Flatten(a) + Flatten(b)
  {
    if a == [] {
      assert a + b == b;
    } else {
      assert (a + b)[1..] == a[1..] + b;
      FlattenJoin(a[1..], b);
    }
  }

  lemma TurnsOneMore(messages: seq<Message>, i: nat)
    requires i < |messages|
    ensures Turns(messages[..i + 1])
         == Turns(messages[..i])
            + if messages[i].role == "system" then [] else [Turn(RoleOf(messages[i]), messages[i].text)]
    decreases i
  {
    var m := messages[i];
    TurnsJoin(messages[..i], [m]);
    assert messages[..i + 1] == messages[..i] + [m];
  }

  lemma {:induction false} TurnsJoin(a: seq<Message>, b: seq<Message>)
    ensures Turns(a + b) == Turns(a) + Turns(b)
  {
    if a == [] {
      assert a + b == b;
    } else {
      assert (a + b)[1..] == a[1..] + b;
      TurnsJoin(a[1..], b);
    }
  }

  lemma FlattenGrows<T>(runs: seq<seq<T>>, t: T)
    requires runs != []
    ensures var n := |runs| - 1; Flatten(runs[n := runs[n] + [t]]) == Flatten(runs) + [t]
  {
    var n := |runs| - 1;
    var run := runs[n];
    assert runs == runs[..n] + [run] && runs[n := run + [t]] == runs[..n] + [run + [t]];
    FlattenJoin(runs[..n], [run]);
    FlattenJoin(runs[..n], [run + [t]]);
    assert Flatten([run]) == run + [] && run + [] == run && Flatten([run + [t]]) == (run + [t]) + [] &&
      (run + [t]) + [] == run + [t];
    assert (Flatten(runs[..n]) + run) + [t] == Flatten(runs[..n]) + (run + [t]);
  }

  lemma MergedGrows(run: seq<Turn>, t: Turn)
    requires run != []
    ensures Merged(run + [t]) == Turn(run[0].role, Merged(run).text + GAP + t.text)
  {
    JoinOfTwo(GAP, Texts(run), [t.text]);
    assert Texts(run + [t]) == Texts(run) + [t.text];
  }

  /** A turn of the last run's role joins that run. */
  lemma RunGrows(turns: seq<Turn>, runs: seq<seq<Turn>>, out: seq<Turn>, t: Turn)
    requires Translates(turns, runs, out) && out != [] && out[|out| - 1].role == t.role
    ensures var n := |out| - 1;
      Translates(turns + [t], runs[n := runs[n] + [t]], out[n := Turn(t.role, out[n].text + GAP + t.text)])
  {
    FlattenGrows(runs, t);
    MergedGrows(runs[|out| - 1], t);
    hide Flatten, Join, Texts;
  }

  /** A turn of the other role begins one. */
  lemma RunBegins(turns: seq<Turn>, runs: seq<seq<Turn>>, out: seq<Turn>, t: Turn)
    requires Translates(turns, runs, out) && (out == [] || out[|out| - 1].role != t.role)
    ensures Translates(turns + [t], runs + [[t]], out + [t])
  {
    FlattenJoin(runs, [[t]]);
    assert Flatten([[t]]) == [t];
    assert Texts([t]) == [t.text];
  }

  // ---- Who said what -------------------------------------------------------------------

  /** The texts at these positions. */
  function TextsAt(messages: seq<Message>, at: seq<nat>): seq<string>
    requires forall p :: p in at ==> p < |messages|
  {
    seq(|at|, k requires 0 <= k < |at| => assert at[k] in at; messages[at[k]].text)
  }

  /** Exactly the positions below `n` of the messages that are the system's, or of those that are not,
      in order. */
  ghost predicate Lists(messages: seq<Message>, n: nat, system: bool, at: seq<nat>)
    requires n <= |messages|
  {
    && (forall k, l :: 0 <= k < l < |at| ==> at[k] < at[l])
    && (forall p: nat :: p in at <==> p < n && (messages[p].role == "system") == system)
  }

  lemma ListsMore(messages: seq<Message>, n: nat, system: bool, at: seq<nat>)
    requires n < |messages| && Lists(messages, n, system, at)
    ensures Lists(messages, n + 1, system, if (messages[n].role == "system") == system then at + [n] else at)
  {
    var at' := at + [n];
    assert forall k :: 0 <= k < |at| ==> at[k] in at;
    assert forall p: nat :: p in at' <==> p in at || p == n;
  }

  /** `block` is said in one turn: the assistant's if its messages are the assistant's, else the user's,
      their texts put together. */
  ghost predicate Says(messages: seq<Message>, block: seq<nat>, turn: Turn) {
    && block != []
    && (forall p :: p in block ==> p < |messages| && (turn.role == Assistant <==> messages[p].role == "assistant"))
    && turn.text == Join("\n\n", TextsAt(messages, block))
  }

  /** The turns say the first `n` messages but for the system's: each turn a block of them, the next turn
      the next block, and none left out. */
  ghost predicate Speaks(messages: seq<Message>, n: nat, blocks: seq<seq<nat>>, out: seq<Turn>)
    requires n <= |messages|
  {
    && |blocks| == |out| && (forall j :: 0 <= j < |out| ==> Says(messages, blocks[j], out[j]))
    && Lists(messages, n, false, Flatten(blocks))
  }

  lemma SaysMore(messages: seq<Message>, block: seq<nat>, turn: Turn, n: nat)
    requires Says(messages, block, turn) && n < |messages|
    requires turn.role == Assistant <==> messages[n].role == "assistant"
    ensures Says(messages, block + [n], Turn(turn.role, turn.text + "\n\n" + messages[n].text))
  {
    var block' := block + [n];
    forall p | p in block' ensures p < |messages| && (turn.role == Assistant <==> messages[p].role == "assistant") {
      assert p in block || p == n;
    }
    assert TextsAt(messages, block') == TextsAt(messages, block) + [messages[n].text];
    JoinOfTwo("\n\n", TextsAt(messages, block), [messages[n].text]);
  }

  lemma SpeaksMore(messages: seq<Message>, n: nat, blocks: seq<seq<nat>>, out: seq<Turn>)
    requires n < |messages| && Speaks(messages, n, blocks, out) && messages[n].role != "system" && out != []
    requires out[|out| - 1].role == Assistant <==> messages[n].role == "assistant"
    ensures var z := |out| - 1;
      Speaks(messages, n + 1, blocks[z := blocks[z] + [n]],
             out[z := Turn(out[z].role, out[z].text + "\n\n" + messages[n].text)])
  {
    SaysMore(messages, blocks[|out| - 1], out[|out| - 1], n);
    FlattenGrows(blocks, n);
    ListsMore(messages, n, false, Flatten(blocks));
    hide Says, Lists, Flatten;
  }

  lemma SpeaksAnew(messages: seq<Message>, n: nat, blocks: seq<seq<nat>>, out: seq<Turn>, role: Role)
    requires n < |messages| && Speaks(messages, n, blocks, out) && messages[n].role != "system"
    requires role == Assistant <==> messages[n].role == "assistant"
    ensures Speaks(messages, n + 1, blocks + [[n]], out + [Turn(role, messages[n].text)])
  {
    assert TextsAt(messages, [n]) == [messages[n].text];
    assert Says(messages, [n], Turn(role, messages[n].text));
    FlattenJoin(blocks, [[n]]);
    assert Flatten([[n]]) == [n];
    ListsMore(messages, n, false, Flatten(blocks));
    hide Says, Lists, Flatten;
  }

  lemma SystemSpeaksNot(messages: seq<Message>, n: nat, blocks: seq<seq<nat>>, out: seq<Turn>)
    requires n < |messages| && Speaks(messages, n, blocks, out) && messages[n].role == "system"
    ensures Speaks(messages, n + 1, blocks, out)
  {
    ListsMore(messages, n, false, Flatten(blocks));
    hide Says, Lists, Flatten;
  }

  ghost predicate SystemListed(messages: seq<Message>, n: nat, at: seq<nat>)
    requires n <= |messages|
  {
    Lists(messages, n, true, at) && SystemTexts(messages[..n]) == TextsAt(messages, at)
  }

  lemma SystemListedMore(messages: seq<Message>, n: nat, at: seq<nat>)
    requires n < |messages| && SystemListed(messages, n, at)
    ensures SystemListed(messages, n + 1, if messages[n].role == "system" then at + [n] else at)
  {
    ListsMore(messages, n, true, at);
    assert forall p :: p in at ==> p < |messages|;
    hide Lists, SystemTexts, TextsAt;
    SystemTextsLast(messages, n);
    TextsAtMore(messages, at, n);
  }

  lemma SystemTextsLast(messages: seq<Message>, n: nat)
    requires n < |messages|
    ensures SystemTexts(messages[..n + 1])
         == if messages[n].role == "system" then SystemTexts(messages[..n]) + [messages[n].text]
            else SystemTexts(messages[..n])
  {
    assert messages[..n + 1] == messages[..n] + [messages[n]];
    SystemTextsJoin(messages[..n], [messages[n]]);
  }

  /** The system's texts are those of its messages, in order. */
  lemma {:induction false} SystemTextsAre(messages: seq<Message>, n: nat) returns (at: seq<nat>)
    requires n <= |messages|
    ensures SystemListed(messages, n, at)
    decreases n
  {
    at := [];
    if n > 0 {
      at := SystemTextsAre(messages, n - 1);
      SystemListedMore(messages, n - 1, at);
      hide SystemListed;
      if messages[n - 1].role == "system" { at := at + [n - 1]; }
    }
  }

  lemma TextsAtMore(messages: seq<Message>, at: seq<nat>, n: nat)
    requires n < |messages| && forall p :: p in at ==> p < |messages|
    ensures forall p :: p in at + [n] ==> p < |messages|
    ensures TextsAt(messages, at + [n]) == TextsAt(messages, at) + [messages[n].text]
  {
    forall p | p in at + [n] ensures p < |messages| {
      assert p in at || p == n;
    }
  }

  lemma {:induction false} SystemTextsJoin(a: seq<Message>, b: seq<Message>)
    ensures SystemTexts(a + b) == SystemTexts(a) + SystemTexts(b)
  {
    if a == [] {
      assert a + b == b;
    } else {
      assert (a + b)[1..] == a[1..] + b;
      SystemTextsJoin(a[1..], b);
    }
  }

  method MergeMessages(messages: seq<Message>)
    returns (out: seq<Turn>, ghost runs: seq<seq<Turn>>, ghost blocks: seq<seq<nat>>)
    ensures Translates(Turns(messages), runs, out)
    ensures Alternates(out)
    ensures Speaks(messages, |messages|, blocks, out)
  {
    out, runs, blocks := [], [], [];
    for i := 0 to |messages|
      invariant Translates(Turns(messages[..i]), runs, out)
      invariant Speaks(messages, i, blocks, out)
    {
      TurnsOneMore(messages, i);
      var msg := messages[i];
      if msg.role == "system" { SystemSpeaksNot(messages, i, blocks, out); }
      hide Says, Lists, Flatten;
      if msg.role != "system" {
        var role := if msg.role == "assistant" then Assistant else User;
        ghost var turns := Turns(messages[..i]);
        var n := |out| - 1;
        if out != [] && out[n].role == role {
          RunGrows(turns, runs, out, Turn(role, msg.text));
          SpeaksMore(messages, i, blocks, out);
          runs, blocks := runs[n := runs[n] + [Turn(role, msg.text)]], blocks[n := blocks[n] + [i]];
          out := out[n := Turn(role, out[n].text + GAP + msg.text)];
        } else {
          RunBegins(turns, runs, out, Turn(role, msg.text));
          SpeaksAnew(messages, i, blocks, out, role);
          runs, blocks := runs + [[Turn(role, msg.text)]], blocks + [[i]];
          out := out + [Turn(role, msg.text)];
        }
      }
    }
    assert messages[..|messages|] == messages;
  }

  /** The system prompt puts together the texts of the system's messages, which are at these positions,
      and is left out if that is empty. */
  ghost predicate IsSystem(messages: seq<Message>, at: seq<nat>, system: Option<string>) {
    && Lists(messages, |messages|, true, at)
    && var text := Join("\n\n", TextsAt(messages, at));
    && system == if text == "" then None else Some(text)
  }

  method BuildAnthropicBody(req: Request) returns (body: Body)
    ensures exists runs :: Translates(Turns(req.messages), runs, body.messages)
    ensures exists blocks :: Speaks(req.messages, |req.messages|, blocks, body.messages)
    ensures Alternates(body.messages)
    ensures exists at :: IsSystem(req.messages, at, body.system)
    ensures body.maxTokens == (if req.maxTokens.Some? then req.maxTokens.value else 4096)
    ensures body.model == req.model && (body.stream <==> req.stream == Some(true))
    ensures forall x :: body.temperature == Some(x) <==> req.temperature == Some(Finite(x))
  {
    var system := Join(GAP, SystemTexts(req.messages));
    ghost var at := SystemTextsAre(req.messages, |req.messages|);
    assert req.messages[..|req.messages|] == req.messages;
    assert IsSystem(req.messages, at, if system == "" then None else Some(system));
    var messages, runs, blocks := MergeMessages(req.messages);
    var temperature := match req.temperature
      case Some(Finite(x)) => Some(x)
      case _ => None;
    body := Body(req.model, messages, if req.maxTokens.Some? then req.maxTokens.value else 4096,
                 if system == "" then None else Some(system), temperature, req.stream == Some(true));
  }

  // ---- What the translation means ------------------------------------------------------

  lemma TranslationAlternates(turns: seq<Turn>, runs: seq<seq<Turn>>, out: seq<Turn>)
    requires Translates(turns, runs, out)
    ensures Alternates(out)
  {
  }

  /** The first run reaches as far as its role does. */
  lemma FirstRunReaches(runs: seq<seq<Turn>>)
    requires IsRuns(runs) && runs != []
    ensures var turns, n := Flatten(runs), |runs[0]|;
      && 0 < n <= |turns| && runs[0] == turns[..n] && Flatten(runs[1..]) == turns[n..]
      && (forall k :: 0 <= k < n ==> turns[k].role == turns[0].role)
      && (n < |turns| ==> turns[n].role != turns[0].role)
  {
    var turns, n := Flatten(runs), |runs[0]|;
    assert forall k :: 0 <= k < n ==> turns[k] == runs[0][k];
    if |runs| > 1 {
      assert turns[n] == runs[1][0];
    }
  }

  /** There is one way to cut turns into maximal runs, and so one translation. */
  lemma {:induction false} RunsAreUnique(a: seq<seq<Turn>>, b: seq<seq<Turn>>)
    requires IsRuns(a) && IsRuns(b) && Flatten(a) == Flatten(b)
    ensures a == b
    decreases |a|
  {
    if a != [] { FirstRunReaches(a); }
    if b != [] { FirstRunReaches(b); }
    if a != [] && b != [] {
      assert |a[0]| == |b[0]|;
      RunsAreUnique(a[1..], b[1..]);
      assert a == [a[0]] + a[1..] && b == [b[0]] + b[1..];
    }
  }

  /** Every text is kept, in order. */
  lemma {:induction false} TextsAreKept(turns: seq<Turn>, runs: seq<seq<Turn>>, out: seq<Turn>)
    requires Translates(turns, runs, out)
    ensures Join(GAP, Texts(out)) == Join(GAP, Texts(turns))
    decreases |runs|
  {
    if |runs| == 1 {
      assert Flatten(runs) == runs[0] + [] && runs[0] + [] == runs[0];
      assert Texts(out) == [out[0].text];
    } else if runs != [] {
      var run, rest := runs[0], Flatten(runs[1..]);
      assert Translates(rest, runs[1..], out[1..]);
      TextsAreKept(rest, runs[1..], out[1..]);
      assert Texts(turns) == Texts(run) + Texts(rest);
      assert rest != [] by { assert runs[1..][0] != []; }
      JoinOfTwo(GAP, Texts(run), Texts(rest));
      assert Texts(out)[1..] == Texts(out[1..]);
    }
  }

  /** Translation changes nothing exactly when the roles already alternate. */
  lemma UnchangedIffAlternating(turns: seq<Turn>, runs: seq<seq<Turn>>, out: seq<Turn>)
    requires Translates(turns, runs, out)
    ensures out == turns <==> Alternates(turns)
  {
    TranslationAlternates(turns, runs, out);
    if Alternates(turns) {
      var single := seq(|turns|, i requires 0 <= i < |turns| => [turns[i]]);
      FlattenSingle(turns);
      RunsAreUnique(runs, single);
      forall i | 0 <= i < |turns| ensures out[i] == turns[i] {
        assert Texts(single[i]) == [turns[i].text];
      }
    }
  }

  lemma {:induction false} FlattenSingle(turns: seq<Turn>)
    ensures Flatten(seq(|turns|, i requires 0 <= i < |turns| => [turns[i]])) == turns
  {
    if turns != [] {
      FlattenSingle(turns[1..]);
      var single := seq(|turns|, i requires 0 <= i < |turns| => [turns[i]]);
      assert single[1..] == seq(|turns[1..]|, i requires 0 <= i < |turns[1..]| => [turns[1..][i]]);
      assert single[0] == [turns[0]];
    }
  }

  /** The system prompt is left out only when there is none, or a single empty one. */
  lemma SystemIsLeftOutIff(messages: seq<Message>)
    ensures Join(GAP, SystemTexts(messages)) == "" <==> SystemTexts(messages) == [] || SystemTexts(messages) == [""]
  {
    var texts := SystemTexts(messages);
    if |texts| > 1 {
      assert |texts[0] + GAP + Join(GAP, texts[1..])| >= 2;
    }
  }
}
