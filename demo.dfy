/**
 * The demo program (demo.c): its command parser, which drives the old
 * library, and the two callbacks that turn a key word into a label.
 * A command is the C string read from the terminal, written here as the
 * characters before its terminator, one `char` per byte of the buffer.
 */
module Demo {
  import opened Wrappers
  import opened G19
  import opened LegacyHeader
  import opened Frame
  import opened Control
  import opened Usb
  import opened Session
  import opened LegacyLibrary

  // ---------------------------------------------------------------------
  // strtok

  /** Length of the run of non-delimiters at the front of `s`. */
  function TokenLen(s: string, d: char): (n: nat)
    ensures n <= |s|
    ensures n == |s| || s[n] == d
  {
    if s == [] || s[0] == d then 0 else 1 + TokenLen(s[1..], d)
  }

  /** Everything before the token length is part of the token. */
  lemma {:induction false} TokenLenSpec(s: string, d: char)
    ensures forall i :: 0 <= i < TokenLen(s, d) ==> s[i] != d
    decreases |s|
  {
    if s != [] && s[0] != d {
      TokenLenSpec(s[1..], d);
      assert forall i :: 1 <= i < TokenLen(s, d) ==> s[i] == s[1..][i - 1];
    }
  }

  /** The tokens successive `strtok` calls return: the maximal runs of
      non-delimiters, in order. */
  function Split(s: string, d: char): (ts: seq<string>)
    ensures |ts| <= |s|
    decreases |s|
  {
    if s == [] then []
    else if s[0] == d then Split(s[1..], d)
    else
      var n := TokenLen(s, d);
      [s[..n]] + Split(s[n..], d)
  }

  /** The first `limit` elements, or all of them. */
  function Take<T>(xs: seq<T>, limit: nat): (ys: seq<T>)
    ensures |ys| == Min(|xs|, limit) && ys == xs[..|ys|]
  {
    if |xs| <= limit then xs else xs[..limit]
  }

  /** Every token is non-empty and free of the delimiter. */
  lemma {:induction false} SplitTokens(s: string, d: char)
    ensures forall i :: 0 <= i < |Split(s, d)| ==> Split(s, d)[i] != [] && d !in Split(s, d)[i]
    decreases |s|
  {
    if s != [] {
      if s[0] == d {
        SplitTokens(s[1..], d);
      } else {
        var n := TokenLen(s, d);
        TokenLenSpec(s, d);
        SplitTokens(s[n..], d);
        var ts := Split(s, d);
        assert ts == [s[..n]] + Split(s[n..], d);
        forall i | 0 <= i < |ts|
          ensures ts[i] != [] && d !in ts[i]
        {
          if i > 0 {
            assert ts[i] == Split(s[n..], d)[i - 1];
          } else {
            assert ts[0] == s[..n];
          }
        }
      }
    }
  }

  /** `s` without its delimiters. */
  function Strip(s: string, d: char): string
  {
    if s == [] then [] else (if s[0] == d then [] else [s[0]]) + Strip(s[1..], d)
  }

  function Concat(ts: seq<string>): string
  {
    if ts == [] then [] else ts[0] + Concat(ts[1..])
  }

  lemma {:induction false} StripAppend(a: string, b: string, d: char)
    ensures Strip(a + b, d) == Strip(a, d) + Strip(b, d)
    decreases |a|
  {
    if a != [] {
      assert (a + b)[1..] == a[1..] + b;
      StripAppend(a[1..], b, d);
    } else {
      assert a + b == b;
    }
  }

  lemma {:induction false} StripNone(a: string, d: char)
    requires d !in a
    ensures Strip(a, d) == a
    decreases |a|
  {
    if a != [] {
      assert d !in a[1..];
      StripNone(a[1..], d);
    }
  }

  /** Tokenising loses exactly the delimiters: the tokens put back
      together are the string with its delimiters removed. */
  lemma {:induction false} SplitRoundTrip(s: string, d: char)
    ensures Concat(Split(s, d)) == Strip(s, d)
    decreases |s|
  {
    if s == [] {
    } else if s[0] == d {
      SplitRoundTrip(s[1..], d);
    } else {
      var n := TokenLen(s, d);
      SplitRoundTrip(s[n..], d);
      assert s == s[..n] + s[n..];
      StripAppend(s[..n], s[n..], d);
      TokenLenSpec(s, d);
      StripNone(s[..n], d);
      var ts := [s[..n]] + Split(s[n..], d);
      assert ts[0] == s[..n] && ts[1..] == Split(s[n..], d);
    }
  }

  /** There is no token exactly when the string is all delimiters. */
  lemma {:induction false} SplitEmpty(s: string, d: char)
    ensures Split(s, d) == [] <==> forall i :: 0 <= i < |s| ==> s[i] == d
    decreases |s|
  {
    if s != [] && s[0] == d {
      SplitEmpty(s[1..], d);
      assert forall i :: 1 <= i < |s| ==> s[i] == s[1..][i - 1];
    }
  }

  /** A string that stops at a delimiter splits independently of what
      follows it. */
  lemma {:induction false} SplitAppend(a: string, b: string, d: char)
    requires a == [] || a[|a| - 1] == d
    ensures Split(a + b, d) == Split(a, d) + Split(b, d)
    decreases |a|
  {
    if a == [] {
      assert a + b == b;
    } else if a[0] == d {
      assert (a + b)[1..] == a[1..] + b;
      SplitAppend(a[1..], b, d);
    } else {
      var n := TokenLen(a, d);
      TokenLenAppend(a, b, d);
      assert (a + b)[..n] == a[..n];
      assert (a + b)[n..] == a[n..] + b;
      SplitAppend(a[n..], b, d);
    }
  }

  lemma {:induction false} TokenLenAppend(a: string, b: string, d: char)
    requires a != [] && a[|a| - 1] == d
    ensures TokenLen(a + b, d) == TokenLen(a, d) < |a|
    decreases |a|
  {
    if a[0] != d {
      assert (a + b)[1..] == a[1..] + b;
      TokenLenAppend(a[1..], b, d);
    }
  }

  /** A word followed by one delimiter is one token. */
  lemma WordThenDelimiter(w: string, d: char)
    requires w != [] && d !in w
    ensures Split(w + [d], d) == [w]
  {
    var s := w + [d];
    TokenLenOf(s, d, |w|);
    assert s[..|w|] == w;
    assert s[|w|..] == [d];
    assert Split([d], d) == Split([], d);
  }

  /** The token that starts at `p` and stops at `q`. */
  lemma TokenAt(s: string, d: char, p: nat, q: nat)
    requires p < q <= |s|
    requires forall i :: p <= i < q ==> s[i] != d
    requires q == |s| || s[q] == d
    ensures Split(s[p..], d) == [s[p..q]] + Split(s[q..], d)
  {
    var t := s[p..];
    assert t[0] == s[p];
    TokenLenOf(t, d, q - p);
    SplitHead(t, d);
    assert t[..q - p] == s[p..q];
    assert t[q - p..] == s[q..];
  }

  /** A delimiter in front is skipped. */
  lemma SplitSkip(s: string, d: char, p: nat)
    requires p < |s| && s[p] == d
    ensures Split(s[p..], d) == Split(s[p + 1..], d)
  {
    assert s[p..][1..] == s[p + 1..];
  }

  /** A string that starts with a token splits into that token and the rest. */
  lemma SplitHead(t: string, d: char)
    requires t != [] && t[0] != d
    ensures Split(t, d) == [t[..TokenLen(t, d)]] + Split(t[TokenLen(t, d)..], d)
  {
  }

  /**
   * The `strtok` loop: calls `strtok` until it returns NULL or `limit`
   * tokens are kept.
   */
  method Tokenize(s: string, d: char, limit: nat) returns (args: seq<string>)
    ensures args == Take(Split(s, d), limit)
  {
    args := [];
    var p := 0;
    while p < |s| && |args| < limit
      invariant 0 <= p <= |s| && |args| <= limit
      invariant args + Split(s[p..], d) == Split(s, d)
      decreases |s| - p, limit - |args|
    {
      if s[p] == d {
        SplitSkip(s, d, p);
        p := p + 1;
      } else {
        var q := p;
        while q < |s| && s[q] != d
          invariant p <= q <= |s|
          invariant forall i :: p <= i < q ==> s[i] != d
        {
          q := q + 1;
        }
        TokenAt(s, d, p, q);
        assert (args + [s[p..q]]) + Split(s[q..], d) == args + ([s[p..q]] + Split(s[q..], d));
        args := args + [s[p..q]];
        p := q;
      }
    }
    if p == |s| {
      assert s[p..] == [];
    }
  }

  // ---------------------------------------------------------------------
  // cmd_parse

  /** `strncmp(a, word, |word|) == 0`: `a` starts with `word`. */
  predicate HasPrefix(a: string, word: string)
  {
    |word| <= |a| && a[..|word|] == word
  }

  /** Number of delimiters in front of the first token. */
  function LeadingDelims(s: string, d: char): (n: nat)
    ensures n <= |s|
    ensures forall i :: 0 <= i < n ==> s[i] == d
    ensures n == |s| || s[n] != d
  {
    if s == [] || s[0] != d then 0 else 1 + LeadingDelims(s[1..], d)
  }

  /** The command buffer as a C string once `strtok` has cut the first
      token: everything up to the end of that token, leading spaces
      included. */
  function HelpView(line: string): (v: string)
    ensures |v| <= |line| && v == line[..|v|]
  {
    var l := LeadingDelims(line, ' ');
    line[..l + TokenLen(line[l..], ' ')]
  }

  /** What one command line does. */
  datatype Action =
    | Ignored
    | SyntaxError
    | Backlight(r: bv8, g: bv8, b: bv8)
    | ClearScreen
    | MLed(keys: bv32)
    | Help
    | Quit
    | Unknown

  /** Dispatch on the kept tokens, in the order of the source's tests:
      backlight, clrscr, mled, help (tested on the command buffer),
      quit. `atoi` is the C library's conversion, truncated to a byte. */
  function DispatchArgs(line: string, args: seq<string>, atoi: string -> bv8): Action
    requires 1 <= |args| <= 4
  {
    if HasPrefix(args[0], "backlight") then
      if |args| < 4 then SyntaxError else Backlight(atoi(args[1]), atoi(args[2]), atoi(args[3]))
    else if HasPrefix(args[0], "clrscr") then ClearScreen
    else if HasPrefix(args[0], "mled") then
      if |args| < 2 then MLed(0) else MLed(MaskOf(Split(args[1], '|')))
    else if HasPrefix(HelpView(line), "help") then Help
    else if HasPrefix(args[0], "quit") then Quit
    else Unknown
  }

  /** `cmd_parse` with the blank-line case closed: NULL, empty and
      all-space commands do nothing. */
  function Dispatch(cmd: Option<string>, atoi: string -> bv8): Action
  {
    if cmd.None? || cmd.value == [] then Ignored
    else
      var args := Take(Split(cmd.value, ' '), 4);
      if args == [] then Ignored else DispatchArgs(cmd.value, args, atoi)
  }

  /** `cmd_parse` as written: a non-empty line with no token dispatches on
      whatever `args[0]` held before the call. */
  function DispatchAsWritten(cmd: Option<string>, stale: string, atoi: string -> bv8): Action
  {
    if cmd.None? || cmd.value == [] then Ignored
    else
      var args := Take(Split(cmd.value, ' '), 4);
      if args == [] then DispatchArgs(cmd.value, [stale], atoi) else DispatchArgs(cmd.value, args, atoi)
  }

  /** The two agree on every line that has a token. */
  lemma DispatchAgreesWithToken(cmd: Option<string>, stale: string, atoi: string -> bv8)
    requires cmd.Some? && Split(cmd.value, ' ') != []
    ensures DispatchAsWritten(cmd, stale, atoi) == Dispatch(cmd, atoi)
  {
  }

  /** A line of spaces only (a line longer than the 99 characters `fgets`
      reads, for instance) gets past the empty check but has no token, so
      the written parser reads an unset `args[0]`. */
  lemma BlankLineReadsStaleArg(atoi: string -> bv8)
    ensures DispatchAsWritten(Some("   "), "quit", atoi) == Quit
    ensures Dispatch(Some("   "), atoi) == Ignored
  {
    SplitEmpty("   ", ' ');
    assert Take(Split("   ", ' '), 4) == [];
    assert |HelpView("   ")| < |"help"|;
    assert HasPrefix("quit", "quit") by {
      assert "quit"[..4] == "quit";
    }
    assert !HasPrefix("quit", "mled") by {
      assert "quit"[0] != "mled"[0];
    }
  }

  /** No command, an empty command and a blank command do nothing; a
      command with a token is dispatched on at most its first four. */
  lemma DispatchGuards(cmd: Option<string>, atoi: string -> bv8)
    ensures cmd.None? || cmd == Some([]) ==> Dispatch(cmd, atoi) == Ignored
    ensures cmd.Some? ==>
      (Dispatch(cmd, atoi) == Ignored <==> forall i :: 0 <= i < |cmd.value| ==> cmd.value[i] == ' ')
  {
    if cmd.Some? {
      SplitEmpty(cmd.value, ' ');
      var args := Take(Split(cmd.value, ' '), 4);
      if args != [] {
        DispatchArgsNotIgnored(cmd.value, args, atoi);
      }
    }
  }

  lemma DispatchArgsNotIgnored(line: string, args: seq<string>, atoi: string -> bv8)
    requires 1 <= |args| <= 4
    ensures DispatchArgs(line, args, atoi) != Ignored
  {
  }

  /** A first token beginning with "backlight" needs three more tokens;
      otherwise it is rejected before any device call. */
  lemma BacklightSyntax(cmd: string, args: seq<string>, atoi: string -> bv8)
    requires args == Take(Split(cmd, ' '), 4) && args != [] && HasPrefix(args[0], "backlight")
    ensures |args| < 4 ==> Dispatch(Some(cmd), atoi) == SyntaxError
    ensures |args| == 4 ==> Dispatch(Some(cmd), atoi) == Backlight(atoi(args[1]), atoi(args[2]), atoi(args[3]))
  {
  }

  /** The tests are by prefix: longer words that start with a command
      are that command. */
  lemma DispatchIsByPrefix(atoi: string -> bv8)
    ensures Dispatch(Some("clrscreen"), atoi) == ClearScreen
  {
    SingleToken("clrscreen", ' ');
    assert "clrscreen"[..6] == "clrscr";
    NotPrefix("clrscreen", "backlight");
  }

  /** Only the first four characters of "quit" are compared. */
  lemma QuitByPrefix(atoi: string -> bv8)
    ensures Dispatch(Some("quitting"), atoi) == Quit
  {
    assert "quitting"[..4] == "quit";
    QuitWord("quitting", atoi);
  }

  /** A single word that starts with "quit" quits. */
  lemma QuitWord(w: string, atoi: string -> bv8)
    requires |w| >= 4 && w[..4] == "quit" && ' ' !in w
    ensures Dispatch(Some(w), atoi) == Quit
  {
    assert w[0] == w[..4][0];
    SingleToken(w, ' ');
    HelpViewIsFirstToken(w);
    NotPrefix(w, "backlight");
    NotPrefix(w, "clrscr");
    NotPrefix(w, "mled");
    NotPrefix(w, "help");
  }

  lemma NotPrefix(a: string, w: string)
    requires a != [] && w != [] && a[0] != w[0]
    ensures !HasPrefix(a, w)
  {
    if |w| <= |a| {
      assert a[..|w|][0] == a[0];
    }
  }

  /** A bare "mled" turns every M-key LED off. */
  lemma MledAlone(atoi: string -> bv8)
    ensures Dispatch(Some("mled"), atoi) == MLed(0)
  {
    SingleToken("mled", ' ');
  }

  /** "help" is found at column zero whatever follows it. */
  lemma HelpWithArgument(atoi: string -> bv8)
    ensures Dispatch(Some("help me"), atoi) == Help
  {
    assert "help me"[..4] == "help" && "help me"[4] == ' ';
    HelpFirst("help me", atoi);
  }

  /** A line that starts with the word `help` asks for help. */
  lemma HelpFirst(line: string, atoi: string -> bv8)
    requires |line| >= 4 && line[..4] == "help" && (|line| == 4 || line[4] == ' ')
    ensures Dispatch(Some(line), atoi) == Help
  {
    assert forall i :: 0 <= i < 4 ==> line[i] == line[..4][i];
    TokenAt(line, ' ', 0, 4);
    assert line[0..] == line && line[0..4] == "help";
    HelpViewIsFirstToken(line);
    assert "help"[..4] == "help";
    NotPrefix("help", "backlight");
    NotPrefix("help", "clrscr");
    NotPrefix("help", "mled");
  }

  /** The token length is the first delimiter's index. */
  lemma {:induction false} TokenLenOf(s: string, d: char, n: nat)
    requires n <= |s| && (forall i :: 0 <= i < n ==> s[i] != d) && (n == |s| || s[n] == d)
    ensures TokenLen(s, d) == n
    decreases n
  {
    if n > 0 {
      var t := s[1..];
      if n < |s| {
        assert t[n - 1] == s[n];
      }
      TokenLenOf(t, d, n - 1);
    }
  }

  /** A non-empty string without delimiters is one token. */
  lemma SingleToken(w: string, d: char)
    requires w != [] && d !in w
    ensures Split(w, d) == [w]
  {
    TokenLenOf(w, d, |w|);
    assert w[..|w|] == w;
    assert w[|w|..] == [];
  }

  /** `help` is tested on the command buffer, not on the first token, so
      it is not recognised after a leading space. */
  lemma HelpNeedsColumnZero(atoi: string -> bv8)
    ensures Dispatch(Some(" help"), atoi) == Unknown
  {
    assert " help" == [' '] + "help";
    SpacedWord("help", atoi);
    NotPrefix("help", "backlight");
    NotPrefix("help", "clrscr");
    NotPrefix("help", "mled");
    NotPrefix(" help", "help");
    NotPrefix("help", "quit");
  }

  /** The other commands are tested on the first token, so a leading
      space does not hide them. */
  lemma QuitAfterSpace(atoi: string -> bv8)
    ensures Dispatch(Some(" quit"), atoi) == Quit
  {
    assert " quit" == [' '] + "quit";
    SpacedWord("quit", atoi);
    assert "quit"[..4] == "quit";
    NotPrefix("quit", "backlight");
    NotPrefix("quit", "clrscr");
    NotPrefix("quit", "mled");
    NotPrefix(" quit", "help");
  }

  /** A word after one space is the only token, and the buffer `help`
      looks at keeps the space. */
  lemma SpacedWord(w: string, atoi: string -> bv8)
    requires w != [] && ' ' !in w
    ensures Dispatch(Some([' '] + w), atoi) == DispatchArgs([' '] + w, [w], atoi)
    ensures HelpView([' '] + w) == [' '] + w
  {
    var s := [' '] + w;
    assert s[1..] == w;
    SingleToken(w, ' ');
    assert LeadingDelims(s, ' ') == 1 by {
      assert s[1] == w[0];
    }
    TokenLenOf(w, ' ', |w|);
    assert s[..|s|] == s;
  }

  /** Without a leading space the buffer test is the first-token test. */
  lemma HelpViewIsFirstToken(line: string)
    requires line != [] && line[0] != ' '
    ensures HelpView(line) == Split(line, ' ')[0]
  {
    var n := TokenLen(line, ' ');
    assert LeadingDelims(line, ' ') == 0;
    assert line[0..] == line;
  }

  // ---------------------------------------------------------------------
  // The mled argument

  /** `tolower` in the C locale. */
  function Lower(c: char): (l: char)
    ensures 'A' <= c <= 'Z' ==> l as int == c as int + 32
    ensures !('A' <= c <= 'Z') ==> l == c
  {
    if 'A' <= c <= 'Z' then (c as int + 32) as char else c
  }

  /** The M-key bit one `|`-separated piece selects: by its second
      character, case-insensitively; nothing for a piece shorter than two. */
  function PieceBit(p: string): bv32
  {
    if |p| < 2 then 0
    else
      var c := Lower(p[1]);
      if c == '1' then LegacyBit(M1)
      else if c == '2' then LegacyBit(M2)
      else if c == '3' then LegacyBit(M3)
      else if c == 'r' then LegacyBit(MR)
      else 0
  }

  /** `keys |= …` over the pieces. */
  function MaskOf(ps: seq<string>): bv32
  {
    if ps == [] then 0 else MaskOf(ps[..|ps| - 1]) | PieceBit(ps[|ps| - 1])
  }

  /** Some piece selects key `k`. */
  predicate Selects(ps: seq<string>, k: Key)
  {
    exists i :: 0 <= i < |ps| && PieceBit(ps[i]) == LegacyBit(k)
  }

  function SelectedBit(ps: seq<string>, k: Key): bv32
  {
    Sel(Selects(ps, k), LegacyBit(k))
  }

  /** The mask is the union of the M-keys some piece selects. */
  lemma {:induction false} MaskIsSelection(ps: seq<string>)
    ensures MaskOf(ps) == SelectedBit(ps, M1) | SelectedBit(ps, M2) | SelectedBit(ps, M3) | SelectedBit(ps, MR)
    decreases |ps|
  {
    if ps == [] {
      assert !Selects(ps, M1) && !Selects(ps, M2) && !Selects(ps, M3) && !Selects(ps, MR);
    } else {
      var init, p := ps[..|ps| - 1], ps[|ps| - 1];
      MaskIsSelection(init);
      assert ps == init + [p];
      SelectsStep(init, p, M1);
      SelectsStep(init, p, M2);
      SelectsStep(init, p, M3);
      SelectsStep(init, p, MR);
      PieceBitCases(p);
      MaskStepBits(MaskOf(init), PieceBit(p),
        Selects(init, M1), Selects(init, M2), Selects(init, M3), Selects(init, MR));
    }
  }

  function Sel(b: bool, bit: bv32): bv32
  {
    if b then bit else 0
  }

  /** One OR step on the four flags. */
  lemma MaskStepBits(m: bv32, x: bv32, s1: bool, s2: bool, s3: bool, s4: bool)
    requires m == Sel(s1, 0x1000) | Sel(s2, 0x2000) | Sel(s3, 0x4000) | Sel(s4, 0x8000)
    requires x == 0 || x == 0x1000 || x == 0x2000 || x == 0x4000 || x == 0x8000
    ensures m | x == Sel(s1 || x == 0x1000, 0x1000) | Sel(s2 || x == 0x2000, 0x2000)
                   | Sel(s3 || x == 0x4000, 0x4000) | Sel(s4 || x == 0x8000, 0x8000)
  {
  }

  lemma PieceBitCases(p: string)
    ensures PieceBit(p) == 0 || PieceBit(p) == 0x1000 || PieceBit(p) == 0x2000
         || PieceBit(p) == 0x4000 || PieceBit(p) == 0x8000
    ensures LegacyBit(M1) == 0x1000 && LegacyBit(M2) == 0x2000 && LegacyBit(M3) == 0x4000 && LegacyBit(MR) == 0x8000
  {
    MKeyConstants();
  }

  /** OR-ing in piece `i`'s bit extends the mask by that piece. */
  lemma OrPiece(keys: bv32, ps: seq<string>, i: nat, bit: bv32)
    requires i < |ps| && keys == MaskOf(ps[..i]) && bit == PieceBit(ps[i])
    ensures MaskOf(ps[..i + 1]) == keys | bit
    ensures bit == 0 ==> MaskOf(ps[..i + 1]) == keys
  {
    MaskStep(ps, i);
  }

  /** One more piece ORs in its bit. */
  lemma MaskStep(ps: seq<string>, i: nat)
    requires i < |ps|
    ensures MaskOf(ps[..i + 1]) == MaskOf(ps[..i]) | PieceBit(ps[i])
  {
    assert ps[..i + 1][..i] == ps[..i];
  }

  lemma SelectsStep(init: seq<string>, p: string, k: Key)
    ensures Selects(init + [p], k) <==> Selects(init, k) || PieceBit(p) == LegacyBit(k)
  {
    var ps := init + [p];
    if Selects(init, k) {
      var i :| 0 <= i < |init| && PieceBit(init[i]) == LegacyBit(k);
      assert ps[i] == init[i];
    }
    if PieceBit(p) == LegacyBit(k) {
      assert ps[|init|] == p;
    }
    if Selects(ps, k) {
      var i :| 0 <= i < |ps| && PieceBit(ps[i]) == LegacyBit(k);
      if i < |init| {
        assert ps[i] == init[i];
      }
    }
  }

  /** A key's bit is in the mask exactly when it is an M-key some piece
      selects. */
  lemma MledBits(ps: seq<string>, k: Key)
    ensures MaskOf(ps) & LegacyBit(k) != 0 <==> k.IsMKey() && Selects(ps, k)
  {
    SelectionMask(ps);
    var s1, s2, s3, s4 := Selects(ps, M1), Selects(ps, M2), Selects(ps, M3), Selects(ps, MR);
    MKeyBits(k);
    if k == M1 {
      SelectionBits(s1, s2, s3, s4, 0x1000);
    } else if k == M2 {
      SelectionBits(s1, s2, s3, s4, 0x2000);
    } else if k == M3 {
      SelectionBits(s1, s2, s3, s4, 0x4000);
    } else if k == MR {
      SelectionBits(s1, s2, s3, s4, 0x8000);
    } else {
      SelectionBits(s1, s2, s3, s4, LegacyBit(k));
    }
  }

  /** Nothing outside the four M-key bits is ever set. */
  lemma MledNibble(ps: seq<string>)
    ensures MaskOf(ps) & !0xF000 == 0
  {
    SelectionMask(ps);
    SelectionBits(Selects(ps, M1), Selects(ps, M2), Selects(ps, M3), Selects(ps, MR), 0);
  }

  /** The mask with the M-key constants written out. */
  lemma SelectionMask(ps: seq<string>)
    ensures MaskOf(ps) == Sel(Selects(ps, M1), 0x1000) | Sel(Selects(ps, M2), 0x2000)
                        | Sel(Selects(ps, M3), 0x4000) | Sel(Selects(ps, MR), 0x8000)
  {
    MaskIsSelection(ps);
    PieceBitCases("");
  }

  /** The old constants of the M-keys, and the other keys' lie outside the
      M-key nibble. */
  lemma MKeyBits(k: Key)
    ensures k == M1 ==> LegacyBit(k) == 0x1000
    ensures k == M2 ==> LegacyBit(k) == 0x2000
    ensures k == M3 ==> LegacyBit(k) == 0x4000
    ensures k == MR ==> LegacyBit(k) == 0x8000
    ensures !k.IsMKey() ==> LegacyBit(k) & 0xF000 == 0
  {
  }

  lemma SelectionBits(s1: bool, s2: bool, s3: bool, s4: bool, bit: bv32)
    ensures var m := Sel(s1, 0x1000) | Sel(s2, 0x2000) | Sel(s3, 0x4000) | Sel(s4, 0x8000);
      m & !0xF000 == 0
      && (bit == 0x1000 ==> (m & bit != 0 <==> s1)) && (bit == 0x2000 ==> (m & bit != 0 <==> s2))
      && (bit == 0x4000 ==> (m & bit != 0 <==> s3)) && (bit == 0x8000 ==> (m & bit != 0 <==> s4))
      && (bit & 0xF000 == 0 ==> m & bit == 0)
  {
  }

  /** The mask depends only on which pieces occur, not on their order or
      repetitions. */
  lemma MledOrderFree(ps: seq<string>, qs: seq<string>)
    requires forall p :: p in ps <==> p in qs
    ensures MaskOf(ps) == MaskOf(qs)
  {
    SelectionMask(ps);
    SelectionMask(qs);
    SameSelects(ps, qs, M1);
    SameSelects(ps, qs, M2);
    SameSelects(ps, qs, M3);
    SameSelects(ps, qs, MR);
  }

  lemma SameSelects(ps: seq<string>, qs: seq<string>, k: Key)
    requires forall p :: p in ps <==> p in qs
    ensures Selects(ps, k) <==> Selects(qs, k)
  {
    if Selects(ps, k) {
      var i :| 0 <= i < |ps| && PieceBit(ps[i]) == LegacyBit(k);
      assert ps[i] in qs;
    }
    if Selects(qs, k) {
      var i :| 0 <= i < |qs| && PieceBit(qs[i]) == LegacyBit(k);
      assert qs[i] in ps;
    }
  }

  /** The `mled` loop: `strtok` on `|` over the argument, OR-ing in each
      piece's key. */
  method MledKeys(arg: string) returns (keys: bv32)
    ensures keys == MaskOf(Split(arg, '|'))
  {
    var pieces := Tokenize(arg, '|', |arg|);
    keys := 0;
    var i := 0;
    while i < |pieces|
      invariant 0 <= i <= |pieces|
      invariant keys == MaskOf(pieces[..i])
    {
      var cp := pieces[i];
      var bit: bv32 := 0;
      if |cp| >= 2 {
        var c := Lower(cp[1]);
        if c == '1' {
          bit := LegacyBit(M1);
        } else if c == '2' {
          bit := LegacyBit(M2);
        } else if c == '3' {
          bit := LegacyBit(M3);
        } else if c == 'r' {
          bit := LegacyBit(MR);
        }
      }
      OrPiece(keys, pieces, i, bit);
      keys := keys | bit;
      i := i + 1;
    }
    assert pieces[..i] == pieces;
  }

  /** "mled m1|MR|x" lights M1 and MR. */
  lemma MledExample()
    ensures MaskOf(["m1", "MR", "x"]) == LegacyBit(M1) | LegacyBit(MR)
  {
    var ps := ["m1", "MR", "x"];
    MaskStep(ps, 0);
    MaskStep(ps, 1);
    MaskStep(ps, 2);
    assert ps[..0] == [] && ps[..3] == ps;
    PieceBitCases("");
  }

  // ---------------------------------------------------------------------
  // Device traffic of a command

  /** The clrscr buffer: G19_BMP_DSIZE zero bytes. */
  function Zeros(): (z: seq<bv8>)
    ensures |z| == BmpDataSize && forall i :: 0 <= i < |z| ==> z[i] == 0
  {
    seq(BmpDataSize, _ => 0)
  }

  lemma ClearScreenReadable()
    ensures LegacyReadable(|Zeros()|, BmpDataSize, LcdFlags(true, true))
  {
    assert PixelCount(BmpDataSize, BmpSize) == 38400;
  }

  /** The frame clrscr sends. */
  function ClearFrame(hdr: Header): seq<bv8>
  {
    LegacyPayload(hdr, Zeros(), BmpDataSize, LcdFlags(true, true)).value
  }

  /** clrscr sends the header followed by a black panel. */
  lemma ClearScreenBlack(hdr: Header)
    ensures ClearFrame(hdr) == hdr + Zeros()
  {
    ClearScreenReadable();
    var f := ClearFrame(hdr);
    assert f == ConvertedFrame(hdr, Zeros(), BmpDataSize, BmpSize);
    assert Pack565(0, 0, 0) == 0;
    forall i | 0 <= i < BmpSize
      ensures f[i] == (hdr + Zeros())[i]
    {
      assert f[i] == ConvertedByte(hdr, Zeros(), BmpDataSize, BmpSize, i);
      if i >= DataHeaderSize {
        var k := (i - DataHeaderSize) / 2;
        if k < PixelCount(BmpDataSize, BmpSize) {
          assert PixelValue(Zeros(), k) == Pack565(0, 0, 0);
        }
      }
    }
  }

  /** What the library sends for an action, given whether a device is
      open. */
  function DeviceTraffic(act: Action, hdr: Header, devh: Option<nat>): seq<Event>
  {
    if devh.None? then []
    else match act
      case Backlight(r, g, b) => [Sent(ControlOut(BacklightPacket(r, g, b)))]
      case ClearScreen => [Sent(BulkOut(0x02, ClearFrame(hdr)))]
      case MLed(keys) => [Sent(ControlOut(MKeysPacket(LegacyMLedByte(keys))))]
      case _ => []
  }

  /** `cmd_parse`: tokenises, dispatches and calls the library. */
  method CmdParse(lib: G19Library, hdr: Header, cmd: Option<string>, atoi: string -> bv8) returns (act: Action)
    requires lib.Valid()
    modifies lib
    ensures lib.Valid() && lib.LibraryUnchanged()
    ensures act == Dispatch(cmd, atoi)
    ensures lib.events == old(lib.events) + DeviceTraffic(act, hdr, lib.devh)
  {
    act := ParseCommand(cmd, atoi);
    Perform(lib, hdr, act);
  }

  /** The tests of `cmd_parse`: the tokens of the line, and the command
      its first token (or, for `help`, the buffer) names. */
  method ParseCommand(cmd: Option<string>, atoi: string -> bv8) returns (act: Action)
    ensures act == Dispatch(cmd, atoi)
  {
    if cmd.None? || cmd.value == [] {
      return Ignored;
    }
    var line := cmd.value;
    var args := Tokenize(line, ' ', 4);
    if args == [] {
      return Ignored;
    }
    assert Dispatch(cmd, atoi) == DispatchArgs(line, args, atoi);
    if HasPrefix(args[0], "backlight") {
      if |args| < 4 {
        return SyntaxError;
      }
      return Backlight(atoi(args[1]), atoi(args[2]), atoi(args[3]));
    } else if HasPrefix(args[0], "clrscr") {
      return ClearScreen;
    } else if HasPrefix(args[0], "mled") {
      if |args| < 2 {
        return MLed(0);
      }
      var keys := MledKeys(args[1]);
      return MLed(keys);
    } else if HasPrefix(HelpView(line), "help") {
      return Help;
    } else if HasPrefix(args[0], "quit") {
      return Quit;
    }
    return Unknown;
  }

  /** `clrscr`: a zeroed panel through `g19_update_lcd`, converted and
      with the header in front. */
  method ClearPanel(lib: G19Library, hdr: Header)
    requires lib.Valid()
    modifies lib
    ensures lib.Valid() && lib.LibraryUnchanged()
    ensures lib.events == old(lib.events) + (if lib.devh.None? then [] else [Sent(BulkOut(0x02, ClearFrame(hdr)))])
  {
    ClearScreenReadable();
    lib.UpdateLcd(hdr, Zeros(), BmpDataSize, LcdFlags(true, true));
  }

  /** The library call a parsed command makes: `g19_set_backlight`,
      `g19_update_lcd` with a zeroed panel, or `g19_set_mkey_led`. */
  method Perform(lib: G19Library, hdr: Header, act: Action)
    requires lib.Valid()
    modifies lib
    ensures lib.Valid() && lib.LibraryUnchanged()
    ensures lib.events == old(lib.events) + DeviceTraffic(act, hdr, lib.devh)
  {
    ghost var traffic := DeviceTraffic(act, hdr, lib.devh);
    match act
    case Backlight(r, g, b) =>
      var _ := lib.SetBacklight(r, g, b);
      assert lib.events == old(lib.events) + traffic;
    case ClearScreen =>
      ClearPanel(lib, hdr);
      assert lib.events == old(lib.events) + traffic;
    case MLed(keys) =>
      var _ := lib.SetMkeyLed(keys);
      assert lib.events == old(lib.events) + traffic;
    case _ =>
      assert traffic == [];
  }

  // ---------------------------------------------------------------------
  // The key callbacks

  /** The name the demo prints for a key. */
  function LabelName(k: Key): (name: string)
    ensures 2 <= |name| <= 6 && ' ' !in name
  {
    match k
    case G1 => "G1"   case G2 => "G2"   case G3 => "G3"   case G4 => "G4"
    case G5 => "G5"   case G6 => "G6"   case G7 => "G7"   case G8 => "G8"
    case G9 => "G9"   case G10 => "G10" case G11 => "G11" case G12 => "G12"
    case M1 => "M1"   case M2 => "M2"   case M3 => "M3"   case MR => "MR"
    case LHome => "HOME"   case LCancel => "CANCEL" case LMenu => "MENU" case LOk => "OK"
    case LRight => "RIGHT" case LLeft => "LEFT"     case LDown => "DOWN" case LUp => "UP"
  }

  /** `keys & k` in the old key constants: `k` is held in `keys`. */
  predicate Held(keys: bv32, k: Key)
  {
    keys & LegacyBit(k) != 0
  }

  /** `print_key` over `ks` in order: each set key's name and a space. */
  function Label(keys: bv32, ks: seq<Key>): string
  {
    if ks == [] then []
    else
      var k := ks[|ks| - 1];
      Label(keys, ks[..|ks| - 1]) + (if Held(keys, k) then LabelName(k) + " " else [])
  }

  /** The keys of `ks` set in `keys`, in order. */
  function Pressed(keys: bv32, ks: seq<Key>): seq<Key>
  {
    if ks == [] then []
    else
      var k := ks[|ks| - 1];
      Pressed(keys, ks[..|ks| - 1]) + (if Held(keys, k) then [k] else [])
  }

  /** A key is listed exactly when it is in `ks` and held. */
  lemma {:induction false} PressedSpec(keys: bv32, ks: seq<Key>, k: Key)
    ensures k in Pressed(keys, ks) <==> k in ks && Held(keys, k)
    decreases |ks|
  {
    if ks != [] {
      var init := ks[..|ks| - 1];
      PressedSpec(keys, init, k);
      assert ks == init + [ks[|ks| - 1]];
    }
  }

  function Names(ks: seq<Key>): seq<string>
  {
    if ks == [] then [] else Names(ks[..|ks| - 1]) + [LabelName(ks[|ks| - 1])]
  }

  /** Room the label of every key in `ks` takes. */
  function FullLength(ks: seq<Key>): nat
  {
    if ks == [] then 0 else FullLength(ks[..|ks| - 1]) + |LabelName(ks[|ks| - 1])| + 1
  }

  /** Each name followed by a space, in order. */
  function Spaced(ns: seq<string>): string
  {
    if ns == [] then [] else Spaced(ns[..|ns| - 1]) + (ns[|ns| - 1] + " ")
  }

  /** Read back, a label is the names of the pressed keys in order: the
      text is decodable, and it names a key exactly when its bit is set. */
  lemma LabelTokens(keys: bv32, ks: seq<Key>)
    ensures Split(Label(keys, ks), ' ') == Names(Pressed(keys, ks))
  {
    LabelIsSpaced(keys, ks);
    NamesClean(Pressed(keys, ks));
    SpacedTokens(Names(Pressed(keys, ks)));
  }

  /** The label is the pressed keys' names, each followed by a space. */
  lemma {:induction false} LabelIsSpaced(keys: bv32, ks: seq<Key>)
    ensures Label(keys, ks) == Spaced(Names(Pressed(keys, ks)))
    decreases |ks|
  {
    if ks != [] {
      var init, k := ks[..|ks| - 1], ks[|ks| - 1];
      LabelIsSpaced(keys, init);
      LabelStep(keys, ks, |ks| - 1);
      PressedStep(keys, ks, |ks| - 1);
      assert ks[..|ks|] == ks;
      if Held(keys, k) {
        assert Pressed(keys, ks) == Pressed(keys, init) + [k];
        NamesAppend(Pressed(keys, init), k);
        SpacedAppend(Names(Pressed(keys, init)), LabelName(k));
      } else {
        assert Pressed(keys, ks) == Pressed(keys, init);
      }
    }
  }

  lemma PressedStep(keys: bv32, ks: seq<Key>, i: nat)
    requires i < |ks|
    ensures Pressed(keys, ks[..i + 1]) == Pressed(keys, ks[..i]) + (if Held(keys, ks[i]) then [ks[i]] else [])
  {
    assert ks[..i + 1][..i] == ks[..i];
  }

  lemma SpacedAppend(ns: seq<string>, w: string)
    ensures Spaced(ns + [w]) == Spaced(ns) + (w + " ")
  {
    assert (ns + [w])[..|ns|] == ns;
  }

  /** Names are non-empty and contain no space. */
  lemma {:induction false} NamesClean(ks: seq<Key>)
    ensures forall i :: 0 <= i < |Names(ks)| ==> Names(ks)[i] != [] && ' ' !in Names(ks)[i]
    decreases |ks|
  {
    if ks != [] {
      NamesClean(ks[..|ks| - 1]);
    }
  }

  /** Names joined by spaces split back into the names, and the text ends
      in a space. */
  lemma {:induction false} SpacedTokens(ns: seq<string>)
    requires forall i :: 0 <= i < |ns| ==> ns[i] != [] && ' ' !in ns[i]
    ensures Split(Spaced(ns), ' ') == ns
    ensures Spaced(ns) == [] || Spaced(ns)[|Spaced(ns)| - 1] == ' '
    decreases |ns|
  {
    if ns != [] {
      var init, w := ns[..|ns| - 1], ns[|ns| - 1];
      SpacedTokens(init);
      WordThenDelimiter(w, ' ');
      SplitAppend(Spaced(init), w + " ", ' ');
      assert init + [w] == ns;
    }
  }

  lemma NamesAppend(ks: seq<Key>, k: Key)
    ensures Names(ks + [k]) == Names(ks) + [LabelName(k)]
  {
    assert (ks + [k])[..|ks|] == ks;
  }

  /** Every key of `ks` is held. */
  predicate AllHeld(keys: bv32, ks: seq<Key>)
  {
    forall i :: 0 <= i < |ks| ==> Held(keys, ks[i])
  }

  /** No key of `ks` is held. */
  predicate NoneHeld(keys: bv32, ks: seq<Key>)
  {
    forall i :: 0 <= i < |ks| ==> !Held(keys, ks[i])
  }

  /** The label never needs more than the full length. */
  lemma {:induction false} LabelLength(keys: bv32, ks: seq<Key>)
    ensures |Label(keys, ks)| <= FullLength(ks)
    decreases |ks|
  {
    if ks != [] {
      LabelLength(keys, ks[..|ks| - 1]);
    }
  }

  /** With every key held the label takes the full length. */
  lemma {:induction false} LabelFullLength(keys: bv32, ks: seq<Key>)
    requires AllHeld(keys, ks)
    ensures |Label(keys, ks)| == FullLength(ks)
    decreases |ks|
  {
    if ks != [] {
      var init := ks[..|ks| - 1];
      assert AllHeld(keys, init) by {
        forall i | 0 <= i < |init| ensures Held(keys, init[i]) {
          assert init[i] == ks[i];
        }
      }
      LabelFullLength(keys, init);
      assert Held(keys, ks[|ks| - 1]);
    }
  }

  /** With no key held the label is empty. */
  lemma {:induction false} LabelEmpty(keys: bv32, ks: seq<Key>)
    requires NoneHeld(keys, ks)
    ensures Label(keys, ks) == []
    decreases |ks|
  {
    if ks != [] {
      var init := ks[..|ks| - 1];
      assert NoneHeld(keys, init) by {
        forall i | 0 <= i < |init| ensures !Held(keys, init[i]) {
          assert init[i] == ks[i];
        }
      }
      LabelEmpty(keys, init);
      assert !Held(keys, ks[|ks| - 1]);
    }
  }

  /** One more key adds its name and a space to the full length. */
  lemma FullLengthStep(ks: seq<Key>, i: nat)
    requires i < |ks|
    ensures FullLength(ks[..i + 1]) == FullLength(ks[..i]) + |LabelName(ks[i])| + 1
  {
    assert ks[..i + 1][..i] == ks[..i];
  }

  lemma FullLengths()
    ensures FullLength(GmKeys) == 51
    ensures FullLength(LKeys) == 39
  {
    GmFullLength();
    LFullLength();
  }

  lemma GmFullLength()
    ensures FullLength(GmKeys) == 51
  {
    GmFullLengthLow();
    FullLengthStep(GmKeys, 8);  FullLengthStep(GmKeys, 9);  FullLengthStep(GmKeys, 10);
    FullLengthStep(GmKeys, 11); FullLengthStep(GmKeys, 12); FullLengthStep(GmKeys, 13);
    FullLengthStep(GmKeys, 14); FullLengthStep(GmKeys, 15);
    assert GmKeys[..16] == GmKeys;
  }

  lemma GmFullLengthLow()
    ensures FullLength(GmKeys[..8]) == 24
  {
    GmFullLengthFirst();
    FullLengthStep(GmKeys, 4); FullLengthStep(GmKeys, 5);
    FullLengthStep(GmKeys, 6); FullLengthStep(GmKeys, 7);
  }

  lemma GmFullLengthFirst()
    ensures FullLength(GmKeys[..4]) == 12
  {
    assert GmKeys[..0] == [];
    FullLengthStep(GmKeys, 0); FullLengthStep(GmKeys, 1);
    FullLengthStep(GmKeys, 2); FullLengthStep(GmKeys, 3);
  }

  lemma LFullLength()
    ensures FullLength(LKeys) == 39
  {
    assert LKeys[..0] == [];
    FullLengthStep(LKeys, 0); FullLengthStep(LKeys, 1); FullLengthStep(LKeys, 2);
    FullLengthStep(LKeys, 3); FullLengthStep(LKeys, 4); FullLengthStep(LKeys, 5);
    FullLengthStep(LKeys, 6); FullLengthStep(LKeys, 7);
    assert LKeys[..8] == LKeys;
  }

  /** One more key appends its name and a space when it is held. */
  lemma LabelStep(keys: bv32, ks: seq<Key>, i: nat)
    requires i < |ks|
    ensures Label(keys, ks[..i + 1])
         == Label(keys, ks[..i]) + (if Held(keys, ks[i]) then LabelName(ks[i]) + " " else [])
  {
    assert ks[..i + 1][..i] == ks[..i];
  }

  /** The bytes `char skeys[40]` and `char skeys[50]` provide. */
  const GKeyBuffer: nat := 40
  const LKeyBuffer: nat := 50
  /** The G-key buffer the full label needs: 51 characters and the NUL. */
  const GKeyBufferFixed: nat := 52

  /** The `strcat` sequence into a buffer of `capacity` bytes; `overflow`
      says whether the label and its NUL run past the buffer. */
  method BuildLabel(keys: bv32, ks: seq<Key>, capacity: nat) returns (text: string, overflow: bool)
    ensures text == Label(keys, ks)
    ensures overflow <==> |text| + 1 > capacity
  {
    text := [];
    for i := 0 to |ks|
      invariant text == Label(keys, ks[..i])
    {
      LabelStep(keys, ks, i);
      if Held(keys, ks[i]) {
        text := text + (LabelName(ks[i]) + " ");
      }
    }
    assert ks[..|ks|] == ks;
    overflow := |text| + 1 > capacity;
  }

  /** `g19_gkeys` as written, with its 40-byte buffer. */
  method GKeysLabelAsWritten(keys: bv32) returns (text: string, overflow: bool)
    ensures text == Label(keys, GmKeys)
    ensures overflow <==> |text| + 1 > GKeyBuffer
  {
    text, overflow := BuildLabel(keys, GmKeys, GKeyBuffer);
  }

  /** With all sixteen G- and M-keys held the label needs 52 bytes. */
  lemma GKeyBufferTooSmall()
    ensures |Label(0xFFFF, GmKeys)| + 1 == 52 > GKeyBuffer
  {
    FullLengths();
    forall i | 0 <= i < |GmKeys|
      ensures Held(0xFFFF, GmKeys[i])
    {
      LegacyGroups(GmKeys[i]);
    }
    LabelFullLength(0xFFFF, GmKeys);
  }

  /** `g19_gkeys` with a buffer the full label fits in: the label reads
      back as the held keys. */
  method GKeysLabel(keys: bv32) returns (text: string)
    ensures |text| + 1 <= GKeyBufferFixed
    ensures Split(text, ' ') == Names(Pressed(keys, GmKeys))
  {
    var overflow;
    text, overflow := BuildLabel(keys, GmKeys, GKeyBufferFixed);
    FullLengths();
    LabelLength(keys, GmKeys);
    LabelTokens(keys, GmKeys);
  }

  /** `g19_lkeys` as written: its parameter is `unsigned short`, so only
      the low 16 bits of the key word arrive, and the L-keys are above
      them: the label is always empty. */
  method LKeysLabelAsWritten(keys: bv32) returns (text: string)
    ensures text == []
  {
    var short := keys & 0xFFFF;
    var overflow;
    text, overflow := BuildLabel(short, LKeys, LKeyBuffer);
    forall i | 0 <= i < |LKeys|
      ensures !Held(short, LKeys[i])
    {
      LegacyGroups(LKeys[i]);
    }
    LabelEmpty(short, LKeys);
  }

  /** `g19_lkeys` taking the whole key word: the label fits its 50 bytes
      and reads back as the held L-keys. */
  method LKeysLabel(keys: bv32) returns (text: string)
    ensures |text| + 1 <= LKeyBuffer
    ensures Split(text, ' ') == Names(Pressed(keys, LKeys))
  {
    var overflow;
    text, overflow := BuildLabel(keys, LKeys, LKeyBuffer);
    FullLengths();
    LabelLength(keys, LKeys);
    LabelTokens(keys, LKeys);
  }
}
