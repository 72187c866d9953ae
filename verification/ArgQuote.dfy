/**
 Quoting of a Windows command line (xproc.c): what append_arg writes is read back by
 CommandLineToArgvW and by the C runtime as the same list of arguments.
 */
module ArgQuote {
  import opened Common

  // UTF-16 units; a string ends at its NUL.
  type Unit = c: int | 0 < c < 0x1_0000 witness 1
  type Text = seq<Unit>

  const QUOTE: Unit := 34
  const SLASH: Unit := 92
  const SPACE: Unit := 32
  const TAB: Unit := 9

  // ---------- runs of backslashes ----------

  function Lead(s: Text): (n: nat)
    ensures n <= |s| && (n < |s| ==> s[n] != SLASH) && forall i :: 0 <= i < n ==> s[i] == SLASH
  {
    if s == [] || s[0] != SLASH then 0 else 1 + Lead(s[1..])
  }

  function Slashes(n: nat): (r: Text)
    ensures |r| == n && forall i :: 0 <= i < n ==> r[i] == SLASH
  {
    seq(n, _ => SLASH)
  }

  lemma {:induction false} LeadOf(n: nat, s: Text)
    requires s == [] || s[0] != SLASH
    ensures Lead(Slashes(n) + s) == n
    decreases n
  {
    var t := Slashes(n) + s;
    if n == 0 {
      assert t == s;
    } else {
      assert t[1..] == Slashes(n - 1) + s;
      LeadOf(n - 1, s);
    }
  }

  lemma {:induction false} SplitLead(s: Text)
    ensures s == Slashes(Lead(s)) + s[Lead(s)..]
  {
  }

  // ---------- the writer ----------

  predicate Special(c: Unit) {
    c == SPACE || c == TAB || c == 10 || c == 11 || c == QUOTE
  }

  predicate Plain(a: Text) {
    a != [] && forall i :: 0 <= i < |a| ==> !Special(a[i])
  }

  // What append_arg writes between the quotes.
  function Body(a: Text): Text
    decreases |a|
  {
    var n := Lead(a);
    if n == |a| then Slashes(2 * n)
    else Slashes(if a[n] == QUOTE then 2 * n + 1 else n) + [a[n]] + Body(a[n+1..])
  }

  function Quoted(a: Text): Text {
    if Plain(a) then a else [QUOTE] + Body(a) + [QUOTE]
  }

  /** An argument is put in quotes exactly if it is empty or contains a space, a tab, a newline, a vertical tab
      or a quote. */
  lemma QuotedWhen(a: Text)
    ensures (a == [] || exists i :: 0 <= i < |a| && a[i] in {32, 9, 10, 11, 34}) ==>
              Quoted(a) == [34] + Body(a) + [34]
    ensures a != [] && (forall i :: 0 <= i < |a| ==> a[i] !in {32, 9, 10, 11, 34}) ==> Quoted(a) == a
  {
  }

  // The arguments with a space between.
  function Join(args: seq<Text>): Text {
    if args == [] then [] else if |args| == 1 then Quoted(args[0]) else Quoted(args[0]) + [SPACE] + Join(args[1..])
  }

  // ---------- the reader ----------

  // Where two quotes inside a quoted part give one, the C runtime goes on quoting and
  // CommandLineToArgvW does not.
  datatype Dialect = Crt | Shell

  predicate Blank(c: Unit) {
    c == SPACE || c == TAB
  }

  // One argument after argv[0]: 2n backslashes before a quote are n of them, 2n+1 are n and a literal
  // quote, other backslashes stand for themselves.
  function Scan(d: Dialect, s: Text, inside: bool): (r: (Text, Text))
    ensures |r.1| <= |s|
    ensures s != [] && (inside || !Blank(s[0])) ==> |r.1| < |s|
    decreases |s|
  {
    if s == [] then ([], [])
    else
      var n := Lead(s);
      if n > 0 then
        if n < |s| && s[n] == QUOTE then
          if n % 2 == 0 then
            var r := Scan(d, s[n..], inside);
            (Slashes(n / 2) + r.0, r.1)
          else
            var r := Scan(d, s[n+1..], inside);
            (Slashes(n / 2) + [QUOTE] + r.0, r.1)
        else
          var r := Scan(d, s[n..], inside);
          (Slashes(n) + r.0, r.1)
      else if s[0] == QUOTE then
        if inside && |s| > 1 && s[1] == QUOTE then
          var r := Scan(d, s[2..], d == Crt);
          ([QUOTE] + r.0, r.1)
        else Scan(d, s[1..], !inside)
      else if Blank(s[0]) && !inside then ([], s)
      else
        var r := Scan(d, s[1..], inside);
        ([s[0]] + r.0, r.1)
  }

  function Skip(s: Text): (r: Text)
    ensures |r| <= |s| && (r == [] || !Blank(r[0]))
  {
    if s != [] && Blank(s[0]) then Skip(s[1..]) else s
  }

  // The arguments after argv[0].
  function Args(d: Dialect, s: Text): seq<Text>
    decreases |s|
  {
    var t := Skip(s);
    if t == [] then []
    else
      var r := Scan(d, t, false);
      [r.0] + Args(d, r.1)
  }

  // ---------- the round trip ----------

  predicate Ends(tail: Text) {
    tail == [] || tail[0] == SPACE
  }

  // The three ways a run of backslashes is read.
  lemma {:induction false} ReadRun(d: Dialect, s: Text, inside: bool)
    requires Lead(s) > 0
    ensures var n := Lead(s);
            Scan(d, s, inside) ==
            if n < |s| && s[n] == QUOTE then
              if n % 2 == 0 then (Slashes(n / 2) + Scan(d, s[n..], inside).0, Scan(d, s[n..], inside).1)
              else (Slashes(n / 2) + [QUOTE] + Scan(d, s[n+1..], inside).0, Scan(d, s[n+1..], inside).1)
            else (Slashes(n) + Scan(d, s[n..], inside).0, Scan(d, s[n..], inside).1)
  {
  }

  lemma Behind(n: nat, s: Text)
    ensures var t := Slashes(n) + s;
            |t| == n + |s| && t[n..] == s && (s != [] ==> t[n] == s[0] && t[n+1..] == s[1..])
    ensures n == 0 ==> Slashes(n) + s == s && Slashes(0) == []
  {
  }

  lemma Halves(n: nat)
    ensures 2 * n / 2 == n && 2 * n % 2 == 0 && (2 * n + 1) / 2 == n && (2 * n + 1) % 2 == 1
  {
  }

  lemma Front(x: Text)
    ensures [] + x == x
  {
  }

  // Backslashes that no quote follows.
  lemma {:induction false} RunLiteral(d: Dialect, n: nat, s: Text, inside: bool)
    requires s == [] || (s[0] != SLASH && s[0] != QUOTE)
    ensures var r := Scan(d, s, inside); Scan(d, Slashes(n) + s, inside) == (Slashes(n) + r.0, r.1)
  {
    hide Scan, Slashes;
    LeadOf(n, s);
    Behind(n, s);
    if n > 0 {
      ReadRun(d, Slashes(n) + s, inside);
    } else {
      Front(Scan(d, s, inside).0);
    }
  }

  // An even number before a quote that counts.
  lemma {:induction false} RunEven(d: Dialect, n: nat, s: Text, inside: bool)
    requires s != [] && s[0] == QUOTE
    ensures var r := Scan(d, s, inside); Scan(d, Slashes(2 * n) + s, inside) == (Slashes(n) + r.0, r.1)
  {
    hide Scan, Slashes;
    LeadOf(2 * n, s);
    Behind(2 * n, s);
    Halves(n);
    if n > 0 {
      ReadRun(d, Slashes(2 * n) + s, inside);
    } else {
      Front(Scan(d, s, inside).0);
    }
  }

  // An odd number before a quote that is part of the argument.
  lemma {:induction false} RunOdd(d: Dialect, n: nat, s: Text, inside: bool)
    ensures var r := Scan(d, s, inside);
            Scan(d, Slashes(2 * n + 1) + ([QUOTE] + s), inside) == (Slashes(n) + [QUOTE] + r.0, r.1)
  {
    hide Scan, Slashes;
    LeadOf(2 * n + 1, [QUOTE] + s);
    Behind(2 * n + 1, [QUOTE] + s);
    Halves(n);
    assert ([QUOTE] + s)[1..] == s;
    ReadRun(d, Slashes(2 * n + 1) + ([QUOTE] + s), inside);
  }

  lemma {:induction false} ScanChar(d: Dialect, c: Unit, s: Text, inside: bool)
    requires c != SLASH && c != QUOTE && (inside || !Blank(c))
    ensures var r := Scan(d, s, inside); Scan(d, [c] + s, inside) == ([c] + r.0, r.1)
  {
    assert ([c] + s)[1..] == s;
  }

  lemma {:induction false} ScanOpen(d: Dialect, s: Text)
    ensures Scan(d, [QUOTE] + s, false) == Scan(d, s, true)
  {
    assert ([QUOTE] + s)[1..] == s;
  }

  lemma {:induction false} ScanEnd(d: Dialect, tail: Text)
    requires Ends(tail)
    ensures Scan(d, tail, false) == ([], tail)
  {
  }

  // The closing quote is never taken for half of a pair.
  lemma {:induction false} ScanClose(d: Dialect, tail: Text)
    requires Ends(tail)
    ensures Scan(d, [QUOTE] + tail, true) == ([], tail)
  {
    assert ([QUOTE] + tail)[1..] == tail;
    ScanEnd(d, tail);
  }

  // ---------- an argument taken apart ----------

  function Rest(a: Text): Text {
    a[Lead(a)..]
  }

  // Backslashes up to the end, or up to another unit.
  lemma Apart(a: Text)
    ensures Rest(a) == [] ==> a == Slashes(Lead(a)) + []
    ensures Rest(a) != [] ==>
              && Rest(a)[0] != SLASH && a[Lead(a)+1..] == Rest(a)[1..] && Rest(a)[0] == a[Lead(a)]
              && a == Slashes(Lead(a)) + [Rest(a)[0]] + Rest(a)[1..]
  {
    SplitLead(a);
    hide Lead, Slashes;
  }

  lemma Assoc(x: Text, y: Text, z: Text)
    ensures (x + y) + z == x + (y + z)
  {
  }

  // One run and one unit, read where nothing needs quoting.
  lemma {:induction false} PlainStep(d: Dialect, n: nat, c: Unit, rest: Text, tail: Text)
    requires !Special(c) && c != SLASH && Scan(d, rest + tail, false) == (rest, tail)
    ensures Scan(d, Slashes(n) + [c] + rest + tail, false) == (Slashes(n) + [c] + rest, tail)
  {
    hide Scan, Slashes;
    ScanChar(d, c, rest + tail, false);
    RunLiteral(d, n, [c] + (rest + tail), false);
    Assoc(Slashes(n), [c], rest);
    Assoc(Slashes(n), [c] + rest, tail);
    Assoc([c], rest, tail);
  }

  // An argument without blanks and quotes is read as it stands.
  lemma {:induction false} ScanPlain(d: Dialect, a: Text, tail: Text)
    requires forall i :: 0 <= i < |a| ==> !Special(a[i])
    requires Ends(tail)
    ensures Scan(d, a + tail, false) == (a, tail)
    decreases |a|
  {
    hide Scan, Slashes, Special;
    Apart(a);
    var n, r := Lead(a), Rest(a);
    if r == [] {
      ScanEnd(d, tail);
      EndIsLiteral(tail);
      RunLiteral(d, n, tail, false);
      assert Slashes(n) + [] == Slashes(n);
    } else {
      ScanPlain(d, a[n+1..], tail);
      PlainStep(d, n, a[n], a[n+1..], tail);
    }
  }

  lemma EndIsLiteral(tail: Text)
    requires Ends(tail)
    ensures tail == [] || (tail[0] != SLASH && tail[0] != QUOTE)
  {
  }

  // What the writer makes of a run and a unit, and how it is read back.
  lemma {:induction false} BodyStep(d: Dialect, n: nat, c: Unit, rest: Text, tail: Text)
    requires c != SLASH && Scan(d, Body(rest) + [QUOTE] + tail, true) == (rest, tail)
    ensures var w := Slashes(if c == QUOTE then 2 * n + 1 else n) + [c] + Body(rest);
            Scan(d, w + [QUOTE] + tail, true) == (Slashes(n) + [c] + rest, tail)
  {
    hide Scan, Slashes, Body;
    var b := Body(rest) + [QUOTE] + tail;
    var x := Slashes(if c == QUOTE then 2 * n + 1 else n);
    Regroup(x, [c], Body(rest), [QUOTE], tail);
    if c == QUOTE {
      RunOdd(d, n, b, true);
    } else {
      ScanChar(d, c, b, true);
      RunLiteral(d, n, [c] + b, true);
      Assoc(Slashes(n), [c], rest);
    }
  }

  lemma Regroup(x: Text, c: Text, y: Text, q: Text, t: Text)
    ensures x + c + y + q + t == x + (c + (y + q + t))
  {
  }

  // What is written between quotes is read as the argument.
  lemma {:induction false} ScanBody(d: Dialect, a: Text, tail: Text)
    requires Ends(tail)
    ensures Scan(d, Body(a) + [QUOTE] + tail, true) == (a, tail)
    decreases |a|
  {
    hide Scan, Slashes;
    Apart(a);
    var n, r := Lead(a), Rest(a);
    if r == [] {
      ScanClose(d, tail);
      RunEven(d, n, [QUOTE] + tail, true);
      Assoc(Slashes(2 * n), [QUOTE], tail);
    } else {
      ScanBody(d, a[n+1..], tail);
      BodyStep(d, n, a[n], a[n+1..], tail);
    }
  }

  lemma {:induction false} ScanQuoted(d: Dialect, a: Text, tail: Text)
    requires Ends(tail)
    ensures Quoted(a) != [] && !Blank(Quoted(a)[0])
    ensures Scan(d, Quoted(a) + tail, false) == (a, tail)
  {
    hide Scan, Body;
    if Plain(a) {
      ScanPlain(d, a, tail);
      assert !Special(a[0]);
    } else {
      assert Quoted(a) + tail == [QUOTE] + (Body(a) + [QUOTE] + tail);
      ScanOpen(d, Body(a) + [QUOTE] + tail);
      ScanBody(d, a, tail);
    }
  }

  // What follows the first argument.
  function After(args: seq<Text>): Text
    requires args != []
  {
    if |args| == 1 then [] else [SPACE] + Join(args[1..])
  }

  lemma {:induction false} JoinSplits(args: seq<Text>)
    requires args != []
    ensures Join(args) == Quoted(args[0]) + After(args) && Ends(After(args))
  {
    hide Quoted;
    Assoc(Quoted(args[0]), [SPACE], Join(args[1..]));
  }

  lemma {:induction false} SkipSpace(d: Dialect, s: Text)
    ensures Args(d, [SPACE] + s) == Args(d, s)
  {
    hide Scan;
    assert ([SPACE] + s)[1..] == s;
  }

  lemma {:induction false} ArgsStep(d: Dialect, s: Text)
    requires s != [] && !Blank(s[0])
    ensures Args(d, s) == [Scan(d, s, false).0] + Args(d, Scan(d, s, false).1)
  {
    hide Scan;
  }

  /** Any list of arguments comes back as it was, in both dialects. */
  lemma {:induction false} JoinRoundTrip(d: Dialect, args: seq<Text>)
    ensures Args(d, Join(args)) == args
    decreases |args|
  {
    hide Scan, Quoted, Args;
    if args == [] {
      NoArgs(d);
    } else {
      JoinSplits(args);
      ScanQuoted(d, args[0], After(args));
      ArgsStep(d, Join(args));
      JoinRoundTrip(d, args[1..]);
      SkipSpace(d, Join(args[1..]));
      assert [args[0]] + args[1..] == args;
    }
  }

  lemma NoArgs(d: Dialect)
    ensures Args(d, []) == []
  {
  }

  // ---------- the program name ----------

  // argv[0] is read by a simpler rule: quotes switch and are dropped, backslashes mean themselves.
  function Program(s: Text, inside: bool): (r: (Text, Text))
    ensures forall i :: 0 <= i < |r.0| ==> r.0[i] != QUOTE
    decreases |s|
  {
    if s == [] then ([], [])
    else if s[0] == QUOTE then Program(s[1..], !inside)
    else if Blank(s[0]) && !inside then ([], s)
    else
      var r := Program(s[1..], inside);
      ([s[0]] + r.0, r.1)
  }

  function CommandLine(d: Dialect, s: Text): seq<Text> {
    var r := Program(s, false);
    [r.0] + Args(d, r.1)
  }

  predicate NoQuote(a: Text) {
    forall i :: 0 <= i < |a| ==> a[i] != QUOTE
  }

  predicate EndsInSlash(a: Text) {
    a != [] && a[|a|-1] == SLASH
  }

  lemma {:induction false} ProgramText(a: Text, tail: Text, inside: bool)
    requires NoQuote(a) && (inside || forall i :: 0 <= i < |a| ==> !Blank(a[i]))
    ensures Program(a + tail, inside) == (a + Program(tail, inside).0, Program(tail, inside).1)
    decreases |a|
  {
    if a == [] {
      assert a + tail == tail;
      Front(Program(tail, inside).0);
    } else {
      assert (a + tail)[1..] == a[1..] + tail;
      ProgramText(a[1..], tail, inside);
      assert [a[0]] + (a[1..] + Program(tail, inside).0) == a + Program(tail, inside).0;
    }
  }

  lemma {:induction false} BodyIs(s: Text, n: nat)
    requires n == Lead(s)
    ensures Body(s) ==
            if n == |s| then Slashes(2 * n)
            else Slashes(if s[n] == QUOTE then 2 * n + 1 else n) + [s[n]] + Body(s[n+1..])
  {
    hide Lead, Slashes;
  }

  // Without quotes the writer changes nothing but a run of backslashes at the end, which it doubles.
  lemma {:induction false} BodyOfName(a: Text)
    requires NoQuote(a)
    ensures NoQuote(Body(a)) && |Body(a)| >= |a| && (Body(a) == a <==> !EndsInSlash(a))
    decreases |a|
  {
    hide Slashes, Body, Lead;
    var n := Lead(a);
    BodyIs(a, n);
    if n < |a| {
      var rest := a[n+1..];
      BodyOfName(rest);
      NameStep(a, n, Body(rest));
    }
  }

  lemma {:induction false} NameStep(a: Text, n: nat, b: Text)
    requires n < |a| && a[n] != SLASH && NoQuote(a) && NoQuote(b) && forall i :: 0 <= i < n ==> a[i] == SLASH
    ensures var w := Slashes(n) + [a[n]] + b;
            NoQuote(w) && |w| == n + 1 + |b| && (w == a <==> b == a[n+1..])
    ensures EndsInSlash(a) == EndsInSlash(a[n+1..])
  {
    var w := Slashes(n) + [a[n]] + b;
    assert w[n+1..] == b;
    if b == a[n+1..] {
      assert w == a;
    }
  }

  // What the reader takes argv[0] for.
  lemma {:induction false} ProgramRead(a: Text, tail: Text)
    requires Ends(tail)
    ensures NoQuote(a) ==> Program(Quoted(a) + tail, false) == (if Plain(a) then a else Body(a), tail)
  {
    hide Body;
    if NoQuote(a) {
      if Plain(a) {
        assert forall i :: 0 <= i < |a| ==> !Special(a[i]);
        ProgramText(a, tail, false);
      } else {
        BodyOfName(a);
        var t := [QUOTE] + tail;
        assert Quoted(a) + tail == [QUOTE] + (Body(a) + t);
        assert ([QUOTE] + (Body(a) + t))[1..] == Body(a) + t && t[1..] == tail;
        ProgramText(Body(a), t, true);
      }
      EndOfName(tail);
    }
  }

  lemma {:induction false} EndOfName(tail: Text)
    requires Ends(tail)
    ensures Program(tail, false) == ([], tail)
    ensures Program([QUOTE] + tail, true) == ([], tail)
    ensures forall x: Text :: x + [] == x
  {
    assert ([QUOTE] + tail)[1..] == tail;
  }

  // The names that survive: no quote, and if they need quotes no backslash at the end.
  predicate SafeName(a: Text) {
    NoQuote(a) && (Plain(a) || !EndsInSlash(a))
  }

  /** The whole command line is read back as the list it was made of exactly if its program name is
      safe; the arguments after it always are. */
  lemma {:induction false} CommandLineIsExact(d: Dialect, argv: seq<Text>)
    requires argv != []
    ensures CommandLine(d, Join(argv)) == argv <==> SafeName(argv[0])
    ensures NoQuote(argv[0]) ==> CommandLine(d, Join(argv))[1..] == argv[1..]
  {
    hide Args, Join, Body, Quoted;
    var a, tail := argv[0], After(argv);
    JoinSplits(argv);
    ProgramRead(a, tail);
    TailReads(d, argv);
    assert argv == [argv[0]] + argv[1..];
    if NoQuote(a) {
      BodyOfName(a);
      var r := CommandLine(d, Join(argv));
      assert r[0] == (if Plain(a) then a else Body(a)) && r[1..] == argv[1..];
    }
  }

  lemma {:induction false} TailReads(d: Dialect, argv: seq<Text>)
    requires argv != []
    ensures Args(d, After(argv)) == argv[1..]
  {
    hide Args, Join;
    JoinRoundTrip(d, argv[1..]);
    SkipSpace(d, Join(argv[1..]));
    NoArgs(d);
  }

  // ---------- the program ----------

  const LIMIT := 32767

  // The growable buffer.
  class WBuf {
    var text: Text

    constructor ()
      ensures text == []
    {
      text := [];
    }

    method PutC(c: Unit)
      modifies this
      ensures text == old(text) + [c]
    {
      text := text + [c];
    }

    method PutSlashes(n: nat)
      modifies this
      ensures text == old(text) + Slashes(n)
    {
      for i := 0 to n
        invariant text == old(text) + Slashes(i)
      {
        PutC(SLASH);
        assert Slashes(i) + [SLASH] == Slashes(i + 1);
      }
    }

    // One round of append_arg: a run of backslashes and the unit behind it.
    method AppendRun(a: Text, p: nat) returns (q: nat, done: bool)
      requires p <= |a|
      modifies this
      ensures q <= |a| && (done ==> text == old(text) + Body(a[p..]))
      ensures !done ==> p < q && text + Body(a[q..]) == old(text) + Body(a[p..])
    {
      hide Lead, Slashes, Body;
      ghost var from, t := a[p..], text;
      var slashes := 0;
      while p + slashes < |a| && a[p + slashes] == SLASH
        invariant p + slashes <= |a| && forall i :: 0 <= i < slashes ==> from[i] == SLASH
      {
        slashes := slashes + 1;
      }
      RunLength(from, slashes);
      BodyUnfolds(a, p, slashes);
      q := p + slashes;
      if q == |a| {
        PutSlashes(slashes * 2);
        return q, true;
      }
      var m := if a[q] == QUOTE then slashes * 2 + 1 else slashes;
      PutSlashes(m);
      PutC(a[q]);
      Regroup3(t, Slashes(m), [a[q]], Body(a[q+1..]));
      return q + 1, false;
    }

    // append_arg
    method AppendArg(a: Text)
      modifies this
      ensures text == old(text) + Quoted(a)
    {
      hide Body;
      if Plain(a) {
        text := text + a;
        return;
      }
      PutC(QUOTE);
      var p, done := 0, false;
      assert a[0..] == a;
      while !done
        invariant 0 <= p <= |a|
        invariant if done then text == old(text) + [QUOTE] + Body(a)
                  else text + Body(a[p..]) == old(text) + [QUOTE] + Body(a)
        decreases !done, |a| - p
      {
        p, done := AppendRun(a, p);
      }
      PutC(QUOTE);
      Assoc(old(text), [QUOTE], Body(a));
      Assoc(old(text), [QUOTE] + Body(a), [QUOTE]);
    }
  }

  lemma {:induction false} BodyUnfolds(a: Text, p: nat, n: nat)
    requires p <= |a| && n == Lead(a[p..])
    ensures p + n <= |a|
    ensures var q := p + n;
            Body(a[p..]) ==
            if q == |a| then Slashes(2 * n)
            else Slashes(if a[q] == QUOTE then 2 * n + 1 else n) + [a[q]] + Body(a[q+1..])
  {
    hide Lead, Slashes, Body;
    var from := a[p..];
    BodyIs(from, n);
    if n < |from| {
      assert from[n+1..] == a[p+n+1..] && from[n] == a[p+n];
    }
  }

  lemma {:induction false} RunLength(s: Text, n: nat)
    requires n <= |s| && (forall i :: 0 <= i < n ==> s[i] == SLASH) && (n < |s| ==> s[n] != SLASH)
    ensures Lead(s) == n
  {
    hide Slashes;
    LeadOf(n, s[n..]);
    assert Slashes(n) + s[n..] == s;
  }

  lemma Regroup3(t: Text, x: Text, c: Text, y: Text)
    ensures t + x + c + y == t + (x + c + y)
  {
  }

  // The loop over argv in xproc_spawn, and the limit on the whole.
  method BuildCommand(argv: seq<Text>) returns (r: Option<Text>)
    ensures r == if |Join(argv)| < LIMIT then Some(Join(argv)) else None
  {
    hide Quoted, Join;
    var cmd := new WBuf();
    var i := 0;
    JoinNone();
    assert argv[..0] == [];
    while i < |argv|
      invariant 0 <= i <= |argv| && cmd.text == Join(argv[..i])
    {
      ghost var t := cmd.text;
      if i > 0 {
        cmd.PutC(SPACE);
      }
      cmd.AppendArg(argv[i]);
      JoinSnoc(argv[..i], argv[i]);
      assert argv[..i] + [argv[i]] == argv[..i+1];
      i := i + 1;
    }
    assert argv[..i] == argv;
    return if |cmd.text| >= LIMIT then None else Some(cmd.text);
  }

  lemma JoinNone()
    ensures Join([]) == []
  {
  }

  lemma {:induction false} JoinSnoc(args: seq<Text>, a: Text)
    ensures Join(args + [a]) == if args == [] then Quoted(a) else Join(args) + [SPACE] + Quoted(a)
    decreases |args|
  {
    hide Quoted;
    if args != [] {
      JoinSnoc(args[1..], a);
      assert (args + [a])[1..] == args[1..] + [a];
      if |args| == 1 {
        assert args[1..] + [a] == [a];
      } else {
        var q := Quoted(args[0]) + [SPACE];
        assert q + (Join(args[1..]) + [SPACE] + Quoted(a)) == q + Join(args[1..]) + [SPACE] + Quoted(a);
      }
    }
  }
}
