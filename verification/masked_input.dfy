/** The edit loop of `masked_input`: keystrokes are read one at a time until
    a carriage return or line feed; a backspace or delete removes the last
    buffered character and erases one asterisk; any other character is
    buffered and echoed as an asterisk. Raw terminal mode and restoring it
    stay outside the model. */
module MaskedInput {

  /** `'\r'` or `'\n'` ends the entry. */
  predicate IsTerminator(c: char) {
    c == '\r' || c == '\n'
  }

  /** `'\x08'` (backspace) or `'\x7f'` (delete) erases. */
  predicate IsBackspace(c: char) {
    c == '\U{8}' || c == '\U{7F}'
  }

  /** One write to the terminal while editing. */
  datatype Echo = Star | Erase

  /** The text of one write: an asterisk, or back-space-space-back to erase one. */
  function EchoText(e: Echo): string {
    match e
    case Star => "*"
    case Erase => "\U{8} \U{8}"
  }

  /** All writes made while editing, in order. */
  function EchoString(es: seq<Echo>): string {
    if |es| == 0 then "" else EchoString(es[..|es| - 1]) + EchoText(es[|es| - 1])
  }

  /** The password typed so far and the writes made so far. */
  datatype Editor = Editor(buffer: string, echoes: seq<Echo>)

  /** Nothing typed, nothing written. */
  const Start: Editor := Editor("", [])

  /** The effect of one keystroke that is not a terminator. */
  function Step(ed: Editor, c: char): Editor {
    if IsBackspace(c) then
      if |ed.buffer| > 0 then Editor(ed.buffer[..|ed.buffer| - 1], ed.echoes + [Erase]) else ed
    else Editor(ed.buffer + [c], ed.echoes + [Star])
  }

  /** How many writes of kind `e`. */
  function CountEcho(es: seq<Echo>, e: Echo): nat {
    if |es| == 0 then 0 else CountEcho(es[..|es| - 1], e) + (if es[|es| - 1] == e then 1 else 0)
  }

  /** The buffer holds no terminator or backspace, and its length is the
      number of asterisks written minus the number erased. */
  predicate Consistent(ed: Editor) {
    && (forall i :: 0 <= i < |ed.buffer| ==> !IsTerminator(ed.buffer[i]) && !IsBackspace(ed.buffer[i]))
    && CountEcho(ed.echoes, Star) == CountEcho(ed.echoes, Erase) + |ed.buffer|
  }

  /** A keystroke keeps the buffer consistent with the screen. */
  lemma StepConsistent(ed: Editor, c: char)
    requires !IsTerminator(c)
    ensures Consistent(ed) ==> Consistent(Step(ed, c))
  {
    var next := Step(ed, c);
    if next != ed {
      assert next.echoes[..|next.echoes| - 1] == ed.echoes;
    }
  }

  /** The edit loop as a fold: consumes keystrokes up to, not including, the
      first terminator; writes are only ever appended. */
  function Run(ed: Editor, keys: string): (final: Editor)
    ensures Consistent(ed) ==> Consistent(final)
    ensures |ed.echoes| <= |final.echoes| && final.echoes[..|ed.echoes|] == ed.echoes
    decreases |keys|
  {
    if |keys| == 0 || IsTerminator(keys[0]) then ed
    else
      var next := Step(ed, keys[0]);
      StepConsistent(ed, keys[0]);
      var final := Run(next, keys[1..]);
      assert final.echoes[..|next.echoes|][..|ed.echoes|] == final.echoes[..|ed.echoes|];
      final
  }

  /** One turn of the loop: a keystroke that is not a terminator is one step. */
  lemma RunStep(ed: Editor, keys: string)
    requires |keys| > 0 && !IsTerminator(keys[0])
    ensures Run(ed, keys) == Run(Step(ed, keys[0]), keys[1..])
  {
  }

  /** The key stream contains a terminator, so the loop returns. */
  predicate HasTerminator(keys: string) {
    exists i :: 0 <= i < |keys| && IsTerminator(keys[i])
  }
  /** A terminator still lies ahead after a keystroke that is not one. */
  lemma TerminatorAhead(keys: string)
    requires HasTerminator(keys) && !IsTerminator(keys[0])
    ensures HasTerminator(keys[1..])
  {
    var j :| 0 <= j < |keys| && IsTerminator(keys[j]);
    assert keys[1..][j - 1] == keys[j];
  }

  /** Appending a write appends its text. */
  lemma EchoStringSnoc(es: seq<Echo>, e: Echo)
    ensures EchoString(es + [e]) == EchoString(es) + EchoText(e)
  {
    assert (es + [e])[..|es|] == es;
  }


  /** No terminator anywhere in `p`. */
  predicate NoTerminator(p: string) {
    forall i :: 0 <= i < |p| ==> !IsTerminator(p[i])
  }

  /** The password entered and the writes made, from the key stream. */
  function MaskedInput(keys: string): (r: Editor)
    requires HasTerminator(keys)
    ensures forall i :: 0 <= i < |r.buffer| ==> !IsTerminator(r.buffer[i]) && !IsBackspace(r.buffer[i])
    ensures CountEcho(r.echoes, Star) - CountEcho(r.echoes, Erase) == |r.buffer|
  {
    Run(Start, keys)
  }

  /** Everything written to the terminal: the edit writes, then the final line feed. */
  function Written(r: Editor): string {
    EchoString(r.echoes) + "\n"
  }

  /** Keystrokes after the first terminator are never read. */
  lemma {:induction false} RunStopsAtTerminator(ed: Editor, p: string, t: char, rest: string)
    requires NoTerminator(p) && IsTerminator(t)
    ensures Run(ed, p + [t] + rest) == Run(ed, p)
    decreases |p|
  {
    var keys := p + [t] + rest;
    if |p| > 0 {
      assert keys[1..] == p[1..] + [t] + rest;
      RunStopsAtTerminator(Step(ed, p[0]), p[1..], t, rest);
    }
  }

  /** The entry depends only on the keystrokes up to the first terminator. */
  lemma IgnoresKeysAfterTerminator(p: string, t: char, rest: string)
    requires NoTerminator(p) && IsTerminator(t)
    ensures HasTerminator(p + [t] + rest) && HasTerminator(p + [t])
    ensures MaskedInput(p + [t] + rest) == MaskedInput(p + [t])
  {
    assert (p + [t] + rest)[|p|] == t;
    assert (p + [t])[|p|] == t;
    RunStopsAtTerminator(Start, p, t, rest);
    RunStopsAtTerminator(Start, p, t, []);
    assert p + [t] + [] == p + [t];
  }

  /** Feeding one more non-terminator keystroke is one more step. */
  lemma {:induction false} RunSnoc(ed: Editor, p: string, c: char)
    requires NoTerminator(p) && !IsTerminator(c)
    ensures Run(ed, p + [c]) == Step(Run(ed, p), c)
    decreases |p|
  {
    if |p| == 0 {
      assert (p + [c])[1..] == [];
    } else {
      assert (p + [c])[1..] == p[1..] + [c];
      RunSnoc(Step(ed, p[0]), p[1..], c);
    }
  }

  /** A backspace after `p` removes the last buffered character and erases
      one asterisk, or does nothing when the buffer is empty. */
  lemma BackspaceErasesLast(p: string, c: char)
    requires NoTerminator(p) && IsBackspace(c)
    ensures var before := Run(Start, p).buffer;
      && (|before| > 0 ==> Run(Start, p + [c]).buffer == before[..|before| - 1])
      && (|before| == 0 ==> Run(Start, p + [c]) == Run(Start, p))
  {
    RunSnoc(Start, p, c);
  }

  /** Asterisks only. */
  function Stars(n: nat): seq<Echo> {
    seq(n, _ => Star)
  }

  /** Without backspaces the password is exactly what was typed, and one
      asterisk is written per character. */
  lemma {:induction false} TypedVerbatim(ed: Editor, p: string)
    requires NoTerminator(p)
    requires forall i :: 0 <= i < |p| ==> !IsBackspace(p[i])
    ensures Run(ed, p) == Editor(ed.buffer + p, ed.echoes + Stars(|p|))
    decreases |p|
  {
    if |p| > 0 {
      TypedVerbatim(Step(ed, p[0]), p[1..]);
      assert ed.buffer + [p[0]] + p[1..] == ed.buffer + p;
      assert ed.echoes + [Star] + Stars(|p| - 1) == ed.echoes + Stars(|p|);
    } else {
      assert ed.buffer + p == ed.buffer;
      assert ed.echoes + Stars(0) == ed.echoes;
    }
  }

  /** The loop of `masked_input` as written: read, test, edit, echo, until a
      terminator; then the final line feed. */
  method ReadMasked(keys: string) returns (password: string, written: string)
    requires HasTerminator(keys)
    ensures password == MaskedInput(keys).buffer
    ensures written == Written(MaskedInput(keys))
  {
    password := "";
    written := "";
    ghost var echoes: seq<Echo> := [];
    var i := 0;
    assert keys[i..] == keys;
    while !IsTerminator(keys[i])
      invariant 0 <= i < |keys|
      invariant HasTerminator(keys[i..])
      invariant Run(Start, keys) == Run(Editor(password, echoes), keys[i..])
      invariant written == EchoString(echoes)
      decreases |keys| - i
    {
      var ch := keys[i];
      ghost var before := Editor(password, echoes);
      RunStep(before, keys[i..]);
      TerminatorAhead(keys[i..]);
      assert keys[i..][1..] == keys[i + 1..];
      if IsBackspace(ch) {
        if |password| > 0 {
          password := password[..|password| - 1];
          EchoStringSnoc(echoes, Erase);
          written := written + "\U{8} \U{8}";
          echoes := echoes + [Erase];
        }
      } else {
        password := password + [ch];
        EchoStringSnoc(echoes, Star);
        written := written + "*";
        echoes := echoes + [Star];
      }
      i := i + 1;
    }
    written := written + "\n";
  }

}
