/**
 * The two builtins of execute.c whose behaviour is more than a libc call:
 * the text `run_echo` writes and the unset-target guard of `run_cd`.
 */
module Builtins {
  import opened Command

  /** Each argument followed by one space, in order (the loop of `run_echo`). */
  function Words(ws: seq<string>): string
  {
    if ws == [] then "" else Words(ws[..|ws| - 1]) + ws[|ws| - 1] + " "
  }

  /** The complete text `run_echo` writes: the words, then a newline. */
  function EchoOutput(ws: seq<string>): string
  {
    Words(ws) + "\n"
  }

  /** `run_echo`: prints every argument followed by a space, then a newline. */
  method RunEcho(ws: seq<string>) returns (out: string)
    ensures out == EchoOutput(ws)
  {
    out := "";
    var i := 0;
    while i < |ws|
      invariant 0 <= i <= |ws|
      invariant out == Words(ws[..i])
    {
      assert ws[..i + 1][..i] == ws[..i];
      out := out + ws[i] + " ";
      i := i + 1;
    }
    assert ws[..i] == ws;
    out := out + "\n";
  }

  /** The sum of the lengths of the words. */
  function TotalLength(ws: seq<string>): nat
  {
    if ws == [] then 0 else TotalLength(ws[..|ws| - 1]) + |ws[|ws| - 1]|
  }

  /** The echo text is one character per argument character, one space per argument, and a newline, which comes last. */
  lemma {:induction false} EchoOutputShape(ws: seq<string>)
    ensures |EchoOutput(ws)| == TotalLength(ws) + |ws| + 1
    ensures EchoOutput(ws)[|EchoOutput(ws)| - 1] == '\n'
    ensures ws != [] ==> EchoOutput(ws)[|EchoOutput(ws)| - 2] == ' '
  {
    WordsLength(ws);
  }

  lemma {:induction false} WordsLength(ws: seq<string>)
    ensures |Words(ws)| == TotalLength(ws) + |ws|
  {
    if ws != [] {
      WordsLength(ws[..|ws| - 1]);
    }
  }

  /** The front view of `Words`: the first argument and its space, then the rest. */
  lemma {:induction false} WordsCons(ws: seq<string>)
    requires ws != []
    ensures Words(ws) == ws[0] + " " + Words(ws[1..])
  {
    if |ws| == 1 {
      assert ws[..0] == [] && ws[1..] == [];
    } else {
      var init, last := ws[..|ws| - 1], ws[|ws| - 1];
      var tail := ws[1..];
      WordsCons(init);
      assert init[0] == ws[0];
      assert tail[..|tail| - 1] == init[1..] && tail[|tail| - 1] == last;
      assert Words(tail) == Words(init[1..]) + last + " ";
      assert Words(ws) == Words(init) + last + " ";
    }
  }

  /** The index of the first space in `s`, or `|s|` when there is none. */
  function FirstSpace(s: string): (k: nat)
    ensures k <= |s|
    ensures forall j :: 0 <= j < k ==> s[j] != ' '
    ensures k < |s| ==> s[k] == ' '
  {
    if s == [] then 0 else if s[0] == ' ' then 0 else 1 + FirstSpace(s[1..])
  }

  /** Splits space-terminated fields apart; the inverse of `Words` for words without spaces. */
  function Split(s: string): seq<string>
    decreases |s|
  {
    if s == [] then []
    else
      var k := FirstSpace(s);
      if k == |s| then [s] else [s[..k]] + Split(s[k + 1..])
  }

  /** Reading the echoed words back field by field gives the arguments, when no argument holds a space. */
  lemma {:induction false} SplitWords(ws: seq<string>)
    requires forall i :: 0 <= i < |ws| ==> ' ' !in ws[i]
    ensures Split(Words(ws)) == ws
  {
    if ws != [] {
      WordsCons(ws);
      var w, rest := ws[0], Words(ws[1..]);
      var s := w + " " + rest;
      assert FirstSpace(s) == |w| by {
        FirstSpaceAfterWord(w, rest);
      }
      assert s[..|w|] == w;
      assert s[|w| + 1..] == rest;
      SplitWords(ws[1..]);
    }
  }

  lemma {:induction false} FirstSpaceAfterWord(w: string, rest: string)
    requires ' ' !in w
    ensures FirstSpace(w + " " + rest) == |w|
  {
    var s := w + " " + rest;
    assert forall j :: 0 <= j < |w| ==> s[j] == w[j];
    assert s[|w|] == ' ';
  }

  /** What `run_cd` does: report an error for an unset target, otherwise change to it. */
  datatype CdEffect = ResolveError | ChangeDir(target: string)

  /** `run_cd`'s guard: an unset target is an error and changes nothing; any set target is changed to. */
  function RunCd(dir: Option<string>): (e: CdEffect)
    ensures e.ResolveError? <==> dir.None?
    ensures e.ChangeDir? ==> dir == Some(e.target)
  {
    match dir
    case None => ResolveError
    case Some(d) => ChangeDir(d)
  }
}
