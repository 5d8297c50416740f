/**
 The parser between a terminal's output and the screen. Output arrives in reads that end
 anywhere; what may be the start of an unfinished sequence is held back for the next one.
 Control sequences are those of section 5.4 of ECMA-48.
 */
module TerminalFeed {
  import opened Wrappers
  import opened TerminalScreen

  const ESC := '\U{001B}'
  const BEL := '\U{0007}'
  const BACKSPACE := '\U{0008}'
  /** How much text is looked at for one cluster. */
  const WINDOW := 9

  // ---- searching -----------------------------------------------------------

  /** What ends a control sequence, and the two things that end an operating system command. */
  datatype End = Final | Bell | Terminator
  {
    function Length(): nat { if this == Terminator then 2 else 1 }

    predicate At(s: string, i: nat) {
      i + Length() <= |s| &&
      match this
      case Final => '@' <= s[i] <= '~'
      case Bell => s[i] == BEL
      case Terminator => s[i] == ESC && s[i + 1] == '\\'
    }
  }

  /** The first place from `from` on where `e` is, or the end. */
  function Find(e: End, s: string, from: nat): (i: nat)
    requires from <= |s|
    ensures from <= i <= |s| && (i < |s| ==> i + e.Length() <= |s|)
    decreases |s| - from
  {
    if from == |s| || e.At(s, from) then from else Find(e, s, from + 1)
  }

  method Search(e: End, s: string, from: nat) returns (i: nat)
    requires from <= |s|
    ensures i == Find(e, s, from)
  {
    i := from;
    while i < |s| && !e.At(s, i)
      invariant from <= i <= |s| && Find(e, s, from) == Find(e, s, i)
    {
      i := i + 1;
    }
  }

  lemma {:induction false} Found(e: End, s: string, from: nat)
    requires from <= |s|
    ensures var i := Find(e, s, from); (i < |s| ==> e.At(s, i)) && forall k :: from <= k < i ==> !e.At(s, k)
    decreases |s| - from
  {
    if from < |s| && !e.At(s, from) { Found(e, s, from + 1); }
  }

  lemma {:induction false} FindIs(e: End, s: string, from: nat, i: nat)
    requires from <= i <= |s| && (i < |s| ==> e.At(s, i)) && forall k :: from <= k < i ==> !e.At(s, k)
    ensures Find(e, s, from) == i
  {
    Found(e, s, from);
  }

  /** In the first `k` characters an end is found where it is in all of them, if it is all there. */
  lemma {:induction false} FindInPrefix(e: End, s: string, k: nat, from: nat)
    requires from <= k <= |s|
    ensures Find(e, s[..k], from) == if Find(e, s, from) + e.Length() <= k then Find(e, s, from) else k
  {
    var i := Find(e, s, from);
    Found(e, s, from);
    assert forall j :: 0 <= j ==> (e.At(s[..k], j) <==> e.At(s, j) && j + e.Length() <= k);
    FindIs(e, s[..k], from, if i + e.Length() <= k then i else k);
  }

  // ---- clusters ------------------------------------------------------------

  /** Where the cluster that has reached `i` ends. */
  function ClusterEnd(u: Unicode, s: string, i: nat): (n: nat)
    requires i <= |s|
    ensures i <= n <= |s|
    decreases |s| - i
  {
    if i == |s| || !u.Joins(s[i]) then i
    else if s[i] == JOINER && i + 1 < |s| then ClusterEnd(u, s, i + 2)
    else ClusterEnd(u, s, i + 1)
  }

  function Window(s: string): (w: string)
    ensures w <= s && (s != "" ==> w != "")
  {
    if |s| <= WINDOW then s else s[..WINDOW]
  }

  /** How many characters the first cluster has. */
  function ClusterLength(u: Unicode, s: string): (n: nat)
    requires s != ""
    ensures 1 <= n <= |s|
  {
    ClusterEnd(u, Window(s), 1)
  }

  method FirstCluster(u: Unicode, s: string) returns (n: nat)
    requires s != ""
    ensures n == ClusterLength(u, s)
  {
    var w := Window(s);
    n := 1;
    while n < |w| && u.Joins(w[n])
      invariant 1 <= n <= |w| && ClusterEnd(u, w, 1) == ClusterEnd(u, w, n)
      decreases |w| - n
    {
      n := if w[n] == JOINER && n + 1 < |w| then n + 2 else n + 1;
    }
  }

  // ---- one token -----------------------------------------------------------

  datatype Token =
    | Command(params: string, final: char) | Ignored | Newline | Return | Back | Tab | Draw(cluster: string)

  datatype Scanned = Held | Taken(token: Token, length: nat)

  function Sequence(s: string): (t: Scanned)
    requires s != "" && s[0] == ESC
    ensures t.Taken? ==> 1 <= t.length <= |s|
  {
    if |s| == 1 then Held
    else if s[1] == '[' then
      var i := Find(Final, s, 2);
      if i == |s| then Held else Taken(Command(s[2..i], s[i]), i + 1)
    else if s[1] == ']' then
      var bell, st := Find(Bell, s, 0), Find(Terminator, s, 0);
      if bell < |s| then Taken(Ignored, bell + 1)
      else if st < |s| then Taken(Ignored, st + 2) else Held
    else Taken(Ignored, 2)
  }

  /** The first token of some text. */
  function Scan(u: Unicode, s: string): (t: Scanned)
    requires s != ""
    ensures LiesIn(t, s)
  {
    if s[0] == ESC then Sequence(s)
    else if s[0] == '\n' then Taken(Newline, 1)
    else if s[0] == '\r' then Taken(Return, 1)
    else if s[0] == BACKSPACE then Taken(Back, 1)
    else if s[0] == '\t' then Taken(Tab, 1)
    else if s[0] >= ' ' then var n := ClusterLength(u, s); Taken(Draw(s[..n]), n)
    else Taken(Ignored, 1)
  }

  function Applied(u: Unicode, v: View, t: Token): (o: Outcome)
    requires v.Valid() && (t.Draw? ==> t.cluster != "")
    ensures o.Valid() && o.view.rows == v.rows && o.view.cols == v.cols
  {
    match t
    case Command(params, final) => AfterCsi(u, v, params, final)
    case Ignored => Done(v)
    case Newline => Done(v.(r := v.r + 1, c := 0))
    case Return => Done(v.(c := 0))
    case Back => Done(v.(c := if v.c <= 0 then 0 else v.c - 1))
    case Tab => Done(v.(c := if (v.c / 8 + 1) * 8 < v.cols - 1 then (v.c / 8 + 1) * 8 else v.cols - 1))
    case Draw(cluster) => Done(v.Put(u, cluster))
  }

  /** What is left unread, or what was shown when something raised. */
  datatype Reading = Fed(view: View, tail: string) | Stopped(view: View)

  /** A token that lies in the text. */
  predicate LiesIn(t: Scanned, s: string) {
    t.Taken? ==> 1 <= t.length <= |s| && (t.token.Draw? ==> t.token.cluster != "")
  }

  /** `feed`. */
  ghost function Feed(u: Unicode, v: View, s: string): (f: Reading)
    requires v.Valid()
    ensures f.view.Valid() && f.view.rows == v.rows && f.view.cols == v.cols
    decreases |s|, 1
  {
    if s == "" then Fed(v, "") else FeedFrom(u, v, s, Scan(u, s))
  }

  /** ... with the first token in hand. */
  ghost function FeedFrom(u: Unicode, v: View, s: string, t: Scanned): (f: Reading)
    requires v.Valid() && LiesIn(t, s)
    ensures f.view.Valid() && f.view.rows == v.rows && f.view.cols == v.cols
    decreases |s|, 0
  {
    match t
    case Held => Fed(v, s)
    case Taken(token, n) =>
      var o := Applied(u, v, token);
      if o.Raised? then Stopped(o.view) else Feed(u, o.view, s[n..])
  }

  // ---- where a read may end --------------------------------------------------

  /** Any beginning of the text is held back or has the same first token. */
  ghost predicate Steady(u: Unicode, s: string)
    requires s != ""
  {
    forall k :: 1 <= k <= |s| ==> SteadyAt(u, s, k)
  }

  predicate SteadyAt(u: Unicode, s: string, k: nat)
    requires 1 <= k <= |s|
  {
    Scan(u, s[..k]) == Held || Scan(u, s[..k]) == Scan(u, s)
  }

  /**
   No terminator before the first bell of an operating system command, and nothing joining on to
   the first character.
   */
  predicate Plain(u: Unicode, s: string)
    requires s != ""
  {
    if s[0] == ESC then
      |s| == 1 || s[1] != ']' || Find(Bell, s, 0) == |s| || Find(Bell, s, 0) < Find(Terminator, s, 0)
    else
      s[0] < ' ' || |s| == 1 || !u.Joins(s[1])
  }

  /** What looking at only the first `k` characters makes of an operating system command. */
  lemma {:induction false} CommandInPrefix(s: string, k: nat)
    requires |s| >= 2 && s[0] == ESC && s[1] == ']' && 2 <= k <= |s|
    ensures var bell, st := Find(Bell, s, 0), Find(Terminator, s, 0);
      Sequence(s[..k]) == (
        if bell < k then Taken(Ignored, bell + 1) else if st + 2 <= k then Taken(Ignored, st + 2) else Held)
  {
    FindInPrefix(Bell, s, k, 0);
    FindInPrefix(Terminator, s, k, 0);
  }

  lemma {:induction false} SequencesAreSteady(u: Unicode, s: string)
    requires s != "" && s[0] == ESC && (|s| == 1 || s[1] != ']')
    ensures Steady(u, s)
  {
    forall k | 1 <= k <= |s| ensures SteadyAt(u, s, k) {
      if k >= 2 && s[1] == '[' {
        FindInPrefix(Final, s, k, 2);
        var i := Find(Final, s, 2);
        if i < k { assert s[..k][2..i] == s[2..i]; }
      }
    }
  }

  lemma {:induction false} CommandsAreSteadyExactly(u: Unicode, s: string)
    requires |s| >= 2 && s[0] == ESC && s[1] == ']'
    ensures Steady(u, s) <==> Plain(u, s)
  {
    var bell, st := Find(Bell, s, 0), Find(Terminator, s, 0);
    Found(Bell, s, 0);
    Found(Terminator, s, 0);
    CommandInPrefix(s, |s|);
    assert s[..|s|] == s;
    if Plain(u, s) {
      forall k | 1 <= k <= |s| ensures SteadyAt(u, s, k) {
        if k >= 2 { CommandInPrefix(s, k); }
      }
    } else {
      BellIsNotInTerminator(s, st, bell);
      CommandInPrefix(s, st + 2);
      assert !SteadyAt(u, s, st + 2);
    }
  }

  lemma {:induction false} BellIsNotInTerminator(s: string, st: nat, bell: nat)
    requires st <= bell < |s| && Terminator.At(s, st) && Bell.At(s, bell)
    ensures st + 2 <= bell
  {
  }

  lemma {:induction false} CharactersAreSteadyExactly(u: Unicode, s: string)
    requires s != "" && s[0] >= ' '
    ensures Steady(u, s) <==> Plain(u, s)
  {
    if Plain(u, s) {
      forall k | 1 <= k <= |s| ensures SteadyAt(u, s, k) {
        AloneInPrefix(u, s, k);
        AloneInPrefix(u, s, |s|);
        assert s[..|s|] == s;
        assert s[..k][..1] == s[..1];
      }
    } else {
      var n := ClusterLength(u, s);
      JoinedIsLonger(u, s);
      AloneInPrefix(u, s[..1], 1);
      assert s[..1][..1] == s[..1];
      assert !SteadyAt(u, s, 1);
    }
  }

  lemma {:induction false} AloneInPrefix(u: Unicode, s: string, k: nat)
    requires 1 <= k <= |s| && (|s| == 1 || !u.Joins(s[1]))
    ensures ClusterLength(u, s[..k]) == 1
  {
    var w := Window(s[..k]);
    if |w| > 1 { assert w[1] == s[1]; }
  }

  lemma {:induction false} JoinedIsLonger(u: Unicode, s: string)
    requires |s| >= 2 && u.Joins(s[1])
    ensures ClusterLength(u, s) > 1
  {
    var w := Window(s);
    assert w[1] == s[1];
  }

  /** The first token does not depend on how much of the text has come exactly where the text is plain. */
  lemma {:induction false} SteadyExactly(u: Unicode, s: string)
    requires s != ""
    ensures Steady(u, s) <==> Plain(u, s)
  {
    if s[0] == ESC {
      if |s| >= 2 && s[1] == ']' { CommandsAreSteadyExactly(u, s); } else { SequencesAreSteady(u, s); }
    } else if s[0] >= ' ' {
      CharactersAreSteadyExactly(u, s);
    } else {
      forall k | 1 <= k <= |s| ensures SteadyAt(u, s, k) { assert s[..k][0] == s[0]; }
    }
  }

  // ---- whole streams ---------------------------------------------------------

  /** Plain at every token. */
  predicate Clean(u: Unicode, s: string)
    decreases |s|
  {
    s == "" || match Scan(u, s)
      case Held => true
      case Taken(_, n) => Plain(u, s) && Clean(u, s[n..])
  }

  /** One read and then another are one read of both. */
  lemma {:induction false} TwoReadsAreOne(u: Unicode, v: View, p: string, q: string)
    requires v.Valid() && Clean(u, p + q)
    ensures Feed(u, v, p + q) == match Feed(u, v, p)
      case Fed(v', tail) => Feed(u, v', tail + q)
      case Stopped(v') => Stopped(v')
    decreases |p|, 1
  {
    if p == "" {
      assert "" + q == q;
    } else {
      var t := Scan(u, p);
      assert Feed(u, v, p) == FeedFrom(u, v, p, t);
      if t.Taken? {
        FirstTokenStays(u, p, q);
        assert Feed(u, v, p + q) == FeedFrom(u, v, p + q, t);
        TurnsAgree(u, v, p, q, t);
      }
    }
  }

  /** The rest of two reads, past a token that is all in the first. */
  lemma {:induction false} TurnsAgree(u: Unicode, v: View, p: string, q: string, t: Scanned)
    requires v.Valid() && t.Taken? && LiesIn(t, p) && Clean(u, (p + q)[t.length..])
    ensures FeedFrom(u, v, p + q, t) == match FeedFrom(u, v, p, t)
      case Fed(v', tail) => Feed(u, v', tail + q)
      case Stopped(v') => Stopped(v')
    decreases |p|, 0
  {
    var o := Applied(u, v, t.token);
    assert (p + q)[t.length..] == p[t.length..] + q;
    if o.Done? { TwoReadsAreOne(u, o.view, p[t.length..], q); }
  }

  /** A token read is the token whatever comes after it. */
  lemma {:induction false} FirstTokenStays(u: Unicode, p: string, q: string)
    requires p != "" && Scan(u, p).Taken? && Clean(u, p + q)
    ensures Scan(u, p + q) == Scan(u, p)
  {
    var s := p + q;
    assert s[..|p|] == p;
    if Scan(u, s).Taken? {
      SteadyExactly(u, s);
      assert SteadyAt(u, s, |p|);
    } else {
      HeldStaysHeld(s, |p|);
    }
  }

  /** No beginning of what is held back has a token in it. */
  lemma {:induction false} HeldStaysHeld(s: string, k: nat)
    requires s != "" && s[0] == ESC && Sequence(s) == Held && 1 <= k <= |s|
    ensures Sequence(s[..k]) == Held
  {
    if k >= 2 {
      if s[1] == '[' { FindInPrefix(Final, s, k, 2); }
      else { CommandInPrefix(s, k); }
    }
  }

  /** A clean stream is clean as far as it has come. */
  lemma {:induction false} CleanSoFar(u: Unicode, p: string, q: string)
    requires Clean(u, p + q)
    ensures Clean(u, p)
    decreases |p|
  {
    if p != "" && Scan(u, p).Taken? {
      var s, n := p + q, Scan(u, p).length;
      FirstTokenStays(u, p, q);
      PlainSoFar(u, s, |p|);
      assert s[..|p|] == p && s[n..] == p[n..] + q;
      CleanSoFar(u, p[n..], q);
    }
  }

  lemma {:induction false} PlainSoFar(u: Unicode, s: string, k: nat)
    requires 1 <= k <= |s| && Plain(u, s)
    ensures Plain(u, s[..k])
  {
    if s[0] == ESC && k >= 2 && s[1] == ']' {
      FindInPrefix(Bell, s, k, 0);
      FindInPrefix(Terminator, s, k, 0);
    }
  }

  function Concat(chunks: seq<string>): string {
    if chunks == [] then "" else Concat(chunks[..|chunks| - 1]) + chunks[|chunks| - 1]
  }

  /** `Reader.feed`, once for each read. */
  ghost function FeedAll(u: Unicode, v: View, chunks: seq<string>): (f: Reading)
    requires v.Valid()
    ensures f.view.Valid()
  {
    if chunks == [] then Fed(v, "")
    else match FeedAll(u, v, chunks[..|chunks| - 1])
      case Fed(v', tail) => Feed(u, v', tail + chunks[|chunks| - 1])
      case Stopped(v') => Stopped(v')
  }

  /** The screen does not depend on where the reads fall. */
  lemma {:induction false} ReadsDoNotMatter(u: Unicode, v: View, chunks: seq<string>)
    requires v.Valid() && Clean(u, Concat(chunks))
    ensures FeedAll(u, v, chunks) == Feed(u, v, Concat(chunks))
    decreases |chunks|
  {
    if chunks != [] {
      var init, last := chunks[..|chunks| - 1], chunks[|chunks| - 1];
      CleanSoFar(u, Concat(init), last);
      ReadsDoNotMatter(u, v, init);
      TwoReadsAreOne(u, v, Concat(init), last);
    }
  }

  /** Text with nothing in it that joins, and no terminator, is clean throughout. */
  lemma {:induction false} OrdinaryIsClean(u: Unicode, s: string)
    requires forall i :: 0 <= i < |s| ==> !u.Joins(s[i])
    requires forall i :: 0 <= i < |s| ==> !Terminator.At(s, i)
    ensures Clean(u, s)
    decreases |s|
  {
    if s != "" && Scan(u, s).Taken? {
      var n := Scan(u, s).length;
      Found(Bell, s, 0);
      Found(Terminator, s, 0);
      forall i | 0 <= i < |s[n..]| ensures !Terminator.At(s[n..], i) { assert !Terminator.At(s, n + i); }
      OrdinaryIsClean(u, s[n..]);
    }
  }

  /** The grid keeps its shape through any reads, whatever is in them and wherever they fall. */
  lemma {:induction false} ShapeIsKept(u: Unicode, v: View, chunks: seq<string>)
    requires v.Valid()
    ensures var v' := FeedAll(u, v, chunks).view; v'.Valid() && v'.rows == v.rows && v'.cols == v.cols
    decreases |chunks|
  {
    if chunks != [] { ShapeIsKept(u, v, chunks[..|chunks| - 1]); }
  }

  /**
   Where a terminator does come before a bell, the reads do matter: all at once everything
   up to the bell is passed over, but with a read ending at the terminator, what is between is drawn.
   */
  lemma {:induction false} BellAfterTerminator(u: Unicode, v: View, c: char)
    requires v.Valid() && ' ' <= c <= '~' && !u.Joins(BEL)
    ensures var p, q := [ESC, ']', ESC, '\\'], [c, BEL];
      Feed(u, v, p + q) == Fed(v, "") && FeedAll(u, v, [p, q]) == Fed(v.Put(u, [c]), "")
  {
    var p: string, q: string := [ESC, ']', ESC, '\\'], [c, BEL];
    PassedOver(u, v, p, 4, Terminator);
    assert p + q == [ESC, ']', ESC, '\\', c, BEL];
    PassedOver(u, v, p + q, 6, Bell);
    TwoReads(u, v, p, q);
    assert "" + q == q;
    DrawnBeforeBell(u, v, c);
  }

  /** An operating system command that fills the text. */
  lemma {:induction false} PassedOver(u: Unicode, v: View, s: string, n: nat, e: End)
    requires v.Valid() && |s| == n >= 4 && s[0] == ESC && s[1] == ']' && e != Final && e.At(s, n - e.Length())
    requires forall k :: 0 <= k < n && Bell.At(s, k) ==> e == Bell && k == n - 1
    requires forall k :: 0 <= k < n && Terminator.At(s, k) && e == Terminator ==> k == n - 2
    ensures Feed(u, v, s) == Fed(v, "")
  {
    FindIs(Bell, s, 0, if e == Bell then n - 1 else n);
    if e == Terminator { FindIs(Terminator, s, 0, n - 2); }
    var t := Scan(u, s);
    assert t == Taken(Ignored, n) && s[n..] == "";
    assert FeedFrom(u, v, s, t) == Feed(u, v, s[n..]);
  }

  lemma {:induction false} DrawnBeforeBell(u: Unicode, v: View, c: char)
    requires v.Valid() && ' ' <= c <= '~'
    requires !u.Joins(BEL)
    ensures Feed(u, v, [c, BEL]) == Fed(v.Put(u, [c]), "")
  {
    var q: string, rest: string := [c, BEL], [BEL];
    AloneInPrefix(u, q, 2);
    assert q[..2] == q && q[..1] == [c] && q[1..] == rest && rest[1..] == "";
    assert Scan(u, q) == Taken(Draw([c]), 1) && Scan(u, rest) == Taken(Ignored, 1);
    var v' := v.Put(u, [c]);
    assert Feed(u, v', rest) == Feed(u, v', rest[1..]);
    assert Feed(u, v, q) == Feed(u, v', q[1..]);
  }

  lemma {:induction false} TwoReads(u: Unicode, v: View, p: string, q: string)
    requires v.Valid()
    ensures FeedAll(u, v, [p, q]) == match Feed(u, v, p)
      case Fed(v', tail) => Feed(u, v', tail + q)
      case Stopped(v') => Stopped(v')
  {
    assert [p, q][..1] == [p] && [p][..0] == [] && "" + p == p;
    assert FeedAll(u, v, [p]) == Feed(u, v, p);
  }

  /** Two newlines on a screen of one row, and then an erase upwards, raise. */
  lemma {:induction false} ErasingFromBelowStops(u: Unicode, v: View)
    requires v.Valid() && v.rows == 1 && v.r == 0 && u.isDigits("1") && u.toInt("1") == Some(1)
    ensures Feed(u, v, ['\n', '\n', ESC, '[', '1', 'J']).Stopped?
  {
    var s: string, t: string := ['\n', '\n', ESC, '[', '1', 'J'], ['\n', ESC, '[', '1', 'J'];
    var e: string := [ESC, '[', '1', 'J'];
    var v1 := v.(r := 1, c := 0);
    var v2 := v.(r := 2, c := 0);
    assert s[1..] == t && t[1..] == e;
    assert FeedFrom(u, v, s, Taken(Newline, 1)) == Feed(u, v1, t);
    assert FeedFrom(u, v1, t, Taken(Newline, 1)) == Feed(u, v2, e);
    FindIs(Final, e, 2, 3);
    assert e[2..3] == "1";
    assert Scan(u, e) == Taken(Command("1", 'J'), 4);
    ErasingFromBelowRaises(u, v2);
    assert FeedFrom(u, v2, e, Taken(Command("1", 'J'), 4)).Stopped?;
  }

  // ---- in place --------------------------------------------------------------

  /** Apply one token to the screen. */
  method Apply(u: Unicode, scr: Screen, t: Token) returns (raised: bool)
    requires scr.Valid() && (t.Draw? ==> t.cluster != "")
    modifies scr
    ensures Applied(u, old(scr.Look()), t) == if raised then Raised(scr.Look()) else Done(scr.Look())
  {
    raised := false;
    match t
    case Command(params, final) => raised := scr.Csi(u, params, final);
    case Ignored =>
    case Newline => scr.r, scr.c := scr.r + 1, 0;
    case Return => scr.c := 0;
    case Back => scr.c := if scr.c > 0 then scr.c - 1 else 0;
    case Tab =>
      var stop := (scr.c / 8 + 1) * 8;
      scr.c := if stop < scr.cols - 1 then stop else scr.cols - 1;
    case Draw(cluster) => scr.Put(u, cluster);
  }

  /** The token at `i`: the branches of the loop, searching forward for where it ends. */
  method ScanAt(u: Unicode, text: string, i: nat) returns (t: Scanned)
    requires i < |text|
    ensures t == Scan(u, text[i..])
  {
    var s := text[i..];
    if s[0] == ESC {
      t := SequenceAt(s);
    } else if s[0] == '\n' {
      t := Taken(Newline, 1);
    } else if s[0] == '\r' {
      t := Taken(Return, 1);
    } else if s[0] == BACKSPACE {
      t := Taken(Back, 1);
    } else if s[0] == '\t' {
      t := Taken(Tab, 1);
    } else if s[0] >= ' ' {
      var n := FirstCluster(u, s);
      t := Taken(Draw(s[..n]), n);
    } else {
      t := Taken(Ignored, 1);
    }
  }

  method SequenceAt(s: string) returns (t: Scanned)
    requires s != "" && s[0] == ESC
    ensures t == Sequence(s)
  {
    if |s| == 1 { return Held; }
    if s[1] == '[' {
      var i := Search(Final, s, 2);
      return if i == |s| then Held else Taken(Command(s[2..i], s[i]), i + 1);
    }
    if s[1] == ']' {
      var bell := Search(Bell, s, 0);
      if bell < |s| { return Taken(Ignored, bell + 1); }
      var st := Search(Terminator, s, 0);
      return if st == |s| then Held else Taken(Ignored, st + 2);
    }
    return Taken(Ignored, 2);
  }

  /** `feed`: the tail to feed back later, or nothing where it raised. */
  method FeedScreen(u: Unicode, scr: Screen, text: string) returns (tail: Option<string>)
    requires scr.Valid()
    modifies scr
    ensures scr.Valid()
    ensures Feed(u, old(scr.Look()), text) == if tail.Some? then Fed(scr.Look(), tail.value) else Stopped(scr.Look())
  {
    var i := 0;
    ghost var goal := Feed(u, scr.Look(), text);
    assert text[0..] == text;
    while i < |text|
      invariant i <= |text| && scr.Valid()
      invariant Feed(u, scr.Look(), text[i..]) == goal
      decreases |text| - i
    {
      var turn := TakeTurn(u, scr, text, i, goal);
      if turn.Holds? { return Some(text[i..]); }
      if turn.Raises? { return None; }
      i := turn.next;
    }
    return Some("");
  }

  datatype Turn = Holds | Raises | Goes(next: nat)

  /** One turn of the loop. */
  method TakeTurn(u: Unicode, scr: Screen, text: string, i: nat, ghost goal: Reading) returns (turn: Turn)
    requires scr.Valid() && i < |text| && goal == Feed(u, scr.Look(), text[i..])
    modifies scr
    ensures scr.Valid()
    ensures turn.Holds? ==> goal == Fed(scr.Look(), text[i..])
    ensures turn.Raises? ==> goal == Stopped(scr.Look())
    ensures turn.Goes? ==> i < turn.next <= |text| && goal == Feed(u, scr.Look(), text[turn.next..])
  {
    var t := ReadToken(u, text, i, scr.Look(), goal);
    if t.Held? { return Holds; }
    turn := ApplyTaken(u, scr, text, i, t, goal);
  }

  /** Read the token at `i`, which is how `Feed` goes on whatever is on the screen. */
  method ReadToken(u: Unicode, text: string, i: nat, ghost v: View, ghost goal: Reading) returns (t: Scanned)
    requires i < |text| && v.Valid() && goal == Feed(u, v, text[i..])
    ensures LiesIn(t, text[i..]) && goal == FeedFrom(u, v, text[i..], t)
    ensures t.Held? ==> goal == Fed(v, text[i..])
  {
    t := ScanAt(u, text, i);
  }

  /** Apply a token read at `i`. */
  method ApplyTaken(u: Unicode, scr: Screen, text: string, i: nat, t: Scanned, ghost goal: Reading)
      returns (turn: Turn)
    requires scr.Valid() && i < |text| && t.Taken? && LiesIn(t, text[i..])
    requires goal == FeedFrom(u, scr.Look(), text[i..], t)
    modifies scr
    ensures scr.Valid() && !turn.Holds?
    ensures turn.Raises? ==> goal == Stopped(scr.Look())
    ensures turn.Goes? ==> i < turn.next <= |text| && goal == Feed(u, scr.Look(), text[turn.next..])
  {
    assert text[i..][t.length..] == text[i + t.length..];
    var raised := Apply(u, scr, t.token);
    turn := if raised then Raises else Goes(i + t.length);
  }

  /** What is held between reads. */
  class Reader {
    var pending: string

    constructor ()
      ensures pending == ""
    {
      pending := "";
    }

    /** `Reader.feed`, on text already decoded. */
    method Read(u: Unicode, scr: Screen, chunk: string) returns (raised: bool)
      requires scr.Valid()
      modifies this, scr
      ensures scr.Valid()
      ensures Feed(u, old(scr.Look()), old(pending) + chunk)
           == (if raised then Stopped(scr.Look()) else Fed(scr.Look(), pending))
    {
      var tail := FeedScreen(u, scr, pending + chunk);
      raised := tail.None?;
      if !raised { pending := tail.value; }
    }
  }
}
