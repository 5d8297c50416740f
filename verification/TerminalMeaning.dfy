/**
 What the emulator's commands do, cell by cell and in the terms of section 8.3 of ECMA-48, and what text is
 taken for which of them.
 */
module TerminalMeaning {
  import opened Wrappers
  import opened TerminalScreen
  import opened TerminalFeed

  // ---- parameters ------------------------------------------------------------

  /** Fields put together again, a semicolon between each two. */
  function Joined(fields: seq<string>): string {
    if fields == [] then "" else if |fields| == 1 then fields[0] else fields[0] + ";" + Joined(fields[1..])
  }

  /** The fields of a parameter string are what stands between its semicolons. */
  lemma {:induction false} FieldsMean(params: string)
    ensures Joined(Fields(params)) == params
    ensures forall i :: 0 <= i < |Fields(params)| ==> ';' !in Fields(params)[i]
    decreases |params|
  {
    if params != "" {
      var rest := Fields(params[1..]);
      FieldsMean(params[1..]);
      assert params == [params[0]] + params[1..];
      if params[0] == ';' {
        assert ([""] + rest)[1..] == rest;
        assert Joined([""] + rest) == "" + ";" + Joined(rest);
      } else {
        var first := [params[0]] + rest[0];
        assert ([first] + rest[1..])[1..] == rest[1..];
        if |rest| == 1 {
          assert [first] + rest[1..] == [first];
        } else {
          assert Joined([first] + rest[1..]) == first + ";" + Joined(rest[1..]);
        }
      }
    }
  }

  /** Each number is its field's, or zero where that is not all digits. */
  lemma {:induction false} NumbersMean(u: Unicode, fields: seq<string>, i: nat)
    requires Numbers(u, fields).Some? && i < |fields|
    ensures |Numbers(u, fields).value| == |fields|
    ensures if u.isDigits(fields[i]) then u.toInt(fields[i]) == Some(Numbers(u, fields).value[i])
            else Numbers(u, fields).value[i] == 0
    decreases |fields|
  {
    var n := |fields| - 1;
    if n > 0 { NumbersMean(u, fields[..n], if i < n then i else 0); }
    assert n == 0 ==> fields[..n] == [];
  }

  // ---- the cursor --------------------------------------------------------------

  function Apart(a: int, b: int): nat { if a <= b then b - a else a - b }

  /** Of the places there are, the one nearest to where the cursor was to go. */
  lemma {:induction false} ClampIsNearest(x: int, n: nat)
    requires n > 0
    ensures Clamp(x, n) < n && forall y :: 0 <= y < n ==> Apart(x, Clamp(x, n)) <= Apart(x, y)
  {
  }

  /** How far, or where to: the first number, or one where it is zero or missing. */
  function Given(ns: seq<nat>, k: nat): (n: nat)
    ensures n > 0
  {
    if k < |ns| && ns[k] > 0 then ns[k] else 1
  }

  /** Where the cursor is, at row `r` and column `c`, after a command given `n` and `m`, where there is room. */
  predicate GoesTo(v: View, final: char, n: nat, m: nat, r: int, c: int) {
    && (final == 'A' ==> c == v.c && if n <= v.r then r + n == v.r else r == 0)
    && (final == 'B' ==> c == v.c && if v.r + n < v.rows then r == v.r + n else r == v.rows - 1)
    && (final == 'C' ==> r == v.r && if v.c + n < v.cols then c == v.c + n else c == v.cols - 1)
    && (final == 'D' ==> r == v.r && if n <= v.c then c + n == v.c else c == 0)
    && (final == 'G' ==> r == v.r && if n <= v.cols then c + 1 == n else c == v.cols - 1)
    && (final == 'd' ==> c == v.c && if n <= v.rows then r + 1 == n else r == v.rows - 1)
    && (final == 'H' || final == 'f' ==>
          && (if n <= v.rows then r + 1 == n else r == v.rows - 1)
          && (if m <= v.cols then c + 1 == m else c == v.cols - 1))
    && (final !in {'A', 'B', 'C', 'D', 'G', 'd', 'H', 'f'} ==> r == v.r && c == v.c)
  }

  lemma {:induction false} MovedMeans(v: View, final: char, ns: seq<nat>, at: (int, int))
    requires v.Valid() && v.r < v.rows && 0 <= v.c < v.cols && at == Moved(v, final, ns)
    ensures GoesTo(v, final, Given(ns, 0), Given(ns, 1), Clamp(at.0, v.rows), Clamp(at.1, v.cols))
  {
  }

  /**
   The cursor commands: CUU, CUD, CUF and CUB move by the number given and in one direction only, CHA and VPA to
   the column and row given, CUP to both; nothing else moves the cursor, and none of these draws or erases.
   */
  lemma {:induction false} CursorMeans(u: Unicode, v: View, params: string, final: char, ns: seq<nat>)
    requires v.Valid() && v.r < v.rows && 0 <= v.c < v.cols && ParamsOf(u, params) == Some(ns)
    ensures var o := AfterCsi(u, v, params, final);
      && (final != 'J' && final != 'K' ==> o.Done? && o.view.grid == v.grid)
      && (o.Done? ==> GoesTo(v, final, Given(ns, 0), Given(ns, 1), o.view.r, o.view.c))
  {
    MovedMeans(v, final, ns, Moved(v, final, ns));
  }

  // ---- erasing -----------------------------------------------------------------

  /** The cells ED and EL blank, by the first number: from the cursor on, up to and with it, or all. */
  predicate ErasedBy(v: View, final: char, mode: nat, y: nat, x: nat) {
    var after, before := y == v.r && x >= v.c, y == v.r && x <= v.c;
    if final == 'J' then
      || (mode == 0 && (y > v.r || after))
      || (mode == 1 && (y < v.r || before))
      || mode == 2 || mode == 3
    else
      final == 'K' && if mode == 1 then before else if mode == 2 then y == v.r else after
  }

  /** A cell is blank after a command where that erases it, and as it was everywhere else. */
  lemma {:induction false} ErasesExactly(
      u: Unicode, v: View, params: string, final: char, ns: seq<nat>, y: nat, x: nat)
    requires v.Valid() && v.r < v.rows && 0 <= v.c && y < v.rows && x < v.cols && ParamsOf(u, params) == Some(ns)
    ensures var o, mode := AfterCsi(u, v, params, final), if ns == [] then 0 else ns[0];
      && o.Done?
      && o.view.grid[y][x] == if ErasedBy(v, final, mode, y, x) then Cluster(" ") else v.grid[y][x]
  {
  }

  // ---- drawing -----------------------------------------------------------------

  /**
   A cluster is drawn at the cursor, or over the last cell where the line is full; a wide one covers the cell after
   it, where there is one; the cursor goes on by its width; and a mark with nothing to go on is not drawn.
   */
  lemma {:induction false} DrawsExactly(u: Unicode, v: View, cluster: string, y: nat, x: nat)
    requires v.Valid() && cluster != "" && v.cols > 0 && v.c >= 0 && y < v.rows && x < v.cols
    ensures var v', at, w := v.Put(u, cluster), if v.c < v.cols then v.c else v.cols - 1, u.Width(cluster);
      && v'.r == v.r
      && v'.c == (if w == 0 then v.c else at + w)
      && v'.grid[y][x] ==
           if w > 0 && y == v.r && x == at then Cluster(cluster)
           else if w == 2 && y == v.r && x == at + 1 then Covered else v.grid[y][x]
  {
  }

  /** A cluster is two cells wide where its first character is, or it asks for that; none, where that is a mark. */
  lemma {:induction false} WidthMeans(u: Unicode, cluster: string)
    requires cluster != ""
    ensures u.Width(cluster) == 2 <==> u.wide(cluster[0]) || '\U{FE0F}' in cluster
    ensures u.Width(cluster) == 0 <==> u.mark(cluster[0]) && !u.wide(cluster[0]) && '\U{FE0F}' !in cluster
    ensures u.Width(cluster) <= 2
  {
  }

  /** There is a tab stop, every eighth column, after `from` and before `to`. */
  ghost predicate StopBefore(from: int, to: int) { exists stop :: from < stop < to && stop % 8 == 0 }

  /** The characters that move the cursor: the start of the next line, of this one, one back, and the next stop. */
  lemma {:induction false} ControlsMean(u: Unicode, v: View, t: Token)
    requires v.Valid() && 0 <= v.c && v.cols > 0 && t in {Newline, Return, Back, Tab, Ignored}
    ensures var o := Applied(u, v, t);
      && o.Done? && o.view.grid == v.grid
      && (t == Newline ==> o.view.r == v.r + 1 && o.view.c == 0)
      && (t == Return ==> o.view.r == v.r && o.view.c == 0)
      && (t == Back ==> o.view.r == v.r && if v.c > 0 then o.view.c + 1 == v.c else o.view.c == 0)
      && (t == Ignored ==> o.view == v)
      && (t == Tab ==> o.view.r == v.r)
      && (t == Tab && StopBefore(v.c, v.cols - 1) ==> v.c < o.view.c <= v.c + 8 && o.view.c % 8 == 0)
      && (t == Tab && !StopBefore(v.c, v.cols - 1) ==> o.view.c == v.cols - 1)
  {
    if t == Tab {
      var stop := (v.c / 8 + 1) * 8;
      assert v.c < stop <= v.c + 8 && stop % 8 == 0;
      forall other | v.c < other && other % 8 == 0 ensures stop <= other {
        assert other / 8 >= v.c / 8 + 1;
      }
    }
  }

  // ---- what text is taken for -----------------------------------------------------

  predicate IsFinal(c: char) { '@' <= c <= '~' }

  /** A control sequence is ESC, a bracket, anything but a final character, and one; without one it is not whole. */
  lemma {:induction false} CommandMeans(u: Unicode, s: string)
    requires |s| >= 2 && s[0] == ESC && s[1] == '['
    ensures Scan(u, s) == Held <==> forall k :: 2 <= k < |s| ==> !IsFinal(s[k])
    ensures Scan(u, s).Taken? ==>
      var n := Scan(u, s).length;
      && 3 <= n <= |s| && Scan(u, s).token == Command(s[2..n - 1], s[n - 1])
      && IsFinal(s[n - 1]) && forall k :: 2 <= k < n - 1 ==> !IsFinal(s[k])
  {
    Found(Final, s, 2);
    assert forall k :: 0 <= k < |s| ==> (Final.At(s, k) <==> IsFinal(s[k]));
  }

  predicate IsTerminator(s: string, k: nat) { k + 1 < |s| && s[k] == ESC && s[k + 1] == '\\' }

  /**
   An operating system command ends with the first BEL after it, or, where there is none at all, with ESC and
   a backslash.
   */
  lemma {:induction false} SystemCommandMeans(u: Unicode, s: string)
    requires |s| >= 2 && s[0] == ESC && s[1] == ']'
    ensures Scan(u, s) == Held <==> BEL !in s && forall k :: 0 <= k < |s| ==> !IsTerminator(s, k)
    ensures Scan(u, s).Taken? ==>
      var n := Scan(u, s).length;
      && Scan(u, s).token == Ignored && 1 <= n <= |s|
      && (BEL in s ==> s[n - 1] == BEL && BEL !in s[..n - 1])
      && (BEL !in s ==> n >= 2 && IsTerminator(s, n - 2) && forall k :: 0 <= k < n - 2 ==> !IsTerminator(s, k))
  {
    Found(Bell, s, 0);
    Found(Terminator, s, 0);
    assert forall k :: 0 <= k < |s| ==> (Bell.At(s, k) <==> s[k] == BEL);
    forall k | 0 <= k < |s| ensures Terminator.At(s, k) <==> IsTerminator(s, k) {
      assert Terminator.Length() == 2;
    }
  }

  /** Everything else: two characters of any other escape are dropped, and so is any other control character. */
  lemma {:induction false} CharacterMeans(u: Unicode, s: string)
    requires s != "" && !(s[0] == ESC && |s| >= 2 && (s[1] == '[' || s[1] == ']'))
    ensures Scan(u, s) ==
      if s[0] == ESC then (if |s| == 1 then Held else Taken(Ignored, 2))
      else if s[0] == '\n' then Taken(Newline, 1) else if s[0] == '\r' then Taken(Return, 1)
      else if s[0] == '\U{0008}' then Taken(Back, 1) else if s[0] == '\t' then Taken(Tab, 1)
      else if s[0] < ' ' then Taken(Ignored, 1)
      else Taken(Draw(s[..ClusterLength(u, s)]), ClusterLength(u, s))
  {
  }

  /** A character belongs to the cluster before it: it combines, is invisible, or comes after a joiner that does. */
  predicate GoesOn(u: Unicode, s: string, k: nat)
    requires 0 < k < |s|
  {
    u.Joins(s[k]) || s[k - 1] == JOINER
  }

  lemma {:induction false} ClusterEndMeans(u: Unicode, s: string, i: nat)
    requires 0 < i <= |s|
    ensures var n := ClusterEnd(u, s, i);
      && (forall k :: i <= k < n ==> GoesOn(u, s, k))
      && (n < |s| ==> !u.Joins(s[n]))
      && (i < n < |s| && s[n - 1] == JOINER ==> i < n - 1 && s[n - 2] == JOINER)
    decreases |s| - i
  {
    if i < |s| && u.Joins(s[i]) {
      if s[i] == JOINER && i + 1 < |s| { ClusterEndMeans(u, s, i + 2); } else { ClusterEndMeans(u, s, i + 1); }
    }
  }

  /** What joins on to the character before it: what combines, the two selectors, and the joiner. */
  lemma {:induction false} JoinsMeans(u: Unicode, c: char)
    ensures u.Joins(c) <==> u.combining(c) || c in {'\U{FE0F}', '\U{FE0E}', '\U{200D}'}
  {
  }

  /**
   The first cluster is a character and all that goes on from it, within nine characters; a joiner takes the next
   character with it, unless it was itself taken by one.
   */
  lemma {:induction false} ClusterMeans(u: Unicode, s: string)
    requires s != ""
    ensures var n := ClusterLength(u, s);
      && 1 <= n <= |s| && n <= 9
      && (forall k :: 1 <= k < n ==> GoesOn(u, s, k))
      && (n < |s| && n < 9 ==> !u.Joins(s[n]))
      && (1 < n < |s| && n < 9 && s[n - 1] == JOINER ==> 1 < n - 1 && s[n - 2] == JOINER)
  {
    ClusterEndMeans(u, Window(s), 1);
    var n := ClusterLength(u, s);
    assert forall k :: 1 <= k < n ==> GoesOn(u, Window(s), k);
    forall k | 1 <= k < n ensures GoesOn(u, s, k) { assert GoesOn(u, Window(s), k); }
  }

  /**
   Choosing a character set takes three characters, of which two are dropped: the last is drawn, which the
   comment beside the code says it is not.
   */
  lemma {:induction false} CharacterSetIsDrawn(u: Unicode, v: View)
    requires v.Valid()
    ensures Feed(u, v, [ESC, '(', 'B']) == Fed(v.Put(u, ['B']), "")
  {
    var s: string := [ESC, '(', 'B'];
    assert Scan(u, s) == Taken(Ignored, 2);
    var rest: string := ['B'];
    assert s[2..] == rest && Window(rest) == rest;
    assert ClusterEnd(u, rest, 1) == 1;
    assert rest[..1] == rest && rest[1..] == "";
    assert Scan(u, rest) == Taken(Draw(rest), 1);
    assert Feed(u, v, rest) == Feed(u, v.Put(u, rest), rest[1..]);
    assert Feed(u, v, s) == FeedFrom(u, v, s, Taken(Ignored, 2)) == Feed(u, v, s[2..]);
  }
}
