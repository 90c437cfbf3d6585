/** The ed script diff3 writes, last change first, and its replay on the lines
  of file 1 (edscript(), prange() and ed_patch_lines() in lib/diff3.c).
*/
module Diff3Script {
  import opened Diff3
  import opened Diff3Changes
  import opened Diff3Groups
  import opened Diff3Lockstep

  /** "<after>a" and "<from>,<to>c", each with the lines up to the lone dot. */
  datatype Command = Append(start: int, lines: seq<Line>) | Replace(start: int, end: int, lines: seq<Line>)

  // ------------------------------------------------------------ meaning of a script

  /** Neither refused nor a replacement of no lines, of line 0 or of lines past the
      end. */
  predicate Sound(ls: seq<Line>, c: Command) {
    !Refused(ls, c) && (c.Append? || 1 <= c.start <= c.end <= |ls|)
  }

  /** Refused for its start. */
  predicate Refused(ls: seq<Line>, c: Command) {
    c.start > |ls| || c.start < 0
  }

  function Apply(ls: seq<Line>, c: Command): seq<Line>
    requires Sound(ls, c)
  {
    match c
    case Append(k, lines) => ls[..k] + lines + ls[k..]
    case Replace(from, to, lines) => ls[..from - 1] + lines + ls[to..]
  }

  /** A command was refused, or one was met that is neither refused nor sound, or the
      lines are these. */
  datatype Outcome = Failed | Undefined | Lines(ls: seq<Line>)

  /** Each command refers to the lines as renumbered by the previous ones. */
  function Run(ls: seq<Line>, cmds: seq<Command>): Outcome
    decreases |cmds|
  {
    if cmds == [] then Lines(ls)
    else if Refused(ls, cmds[0]) then Failed
    else if !Sound(ls, cmds[0]) then Undefined
    else Run(Apply(ls, cmds[0]), cmds[1..])
  }

  // ------------------------------------------------------------ writing the script

  function Text(f3: seq<Line>, e: Edit): seq<Line>
    requires TextRange(f3, e.newo)
  {
    f3[e.newo.from..e.newo.to]
  }

  /** The commands for one edit: one for a change taken from file 3, two for a
      conflict, the closing part first. */
  function CommandsOf(f: Files, m: Marks, e: Edit): seq<Command>
    requires EditText(f.f2, f.f3, e)
  {
    if !e.overlap then
      if e.was.to <= e.was.from then [Append(e.was.from - 1, Text(f.f3, e))]
      else [Replace(e.was.from, e.was.to - 1, Text(f.f3, e))]
    else
      [Append(e.was.to - 1, Closing(f, m, e)), Append(e.was.from - 1, [m.f1mark])]
  }

  function Closing(f: Files, m: Marks, e: Edit): seq<Line>
    requires EditText(f.f2, f.f3, e)
  {
    (if BaseText(f.f2, e) == [] then [m.sep] else [m.f2mark] + BaseText(f.f2, e) + [m.sep]) + Text(f.f3, e) + [m.f3mark]
  }

  function ScriptOf(f: Files, m: Marks, de: seq<Edit>): seq<Command>
    requires forall i | 0 <= i < |de| :: EditText(f.f2, f.f3, de[i])
  {
    if de == [] then [] else CommandsOf(f, m, de[|de| - 1]) + ScriptOf(f, m, de[..|de| - 1])
  }

  /** One round of edscript(), including prange(). */
  method WriteEdit(f: Files, m: Marks, e: Edit) returns (cmds: seq<Command>)
    requires EditText(f.f2, f.f3, e)
    ensures cmds == CommandsOf(f, m, e)
  {
    var text := f.f3[e.newo.from..e.newo.to];
    if !e.overlap {
      if e.was.to <= e.was.from {
        cmds := [Append(e.was.from - 1, text)];
      } else {
        cmds := [Replace(e.was.from, e.was.to - 1, text)];
      }
      return;
    }
    var block := [m.sep];
    if e.oldo.from < e.oldo.to {
      block := [m.f2mark] + f.f2[e.oldo.from..e.oldo.to] + [m.sep];
    }
    block := block + text + [m.f3mark];
    cmds := [Append(e.was.to - 1, block), Append(e.was.from - 1, [m.f1mark])];
  }

  /** edscript(): from the last edit down to the first. */
  method EdScript(f: Files, m: Marks, de: seq<Edit>) returns (cmds: seq<Command>)
    requires forall i | 0 <= i < |de| :: EditText(f.f2, f.f3, de[i])
    ensures cmds == ScriptOf(f, m, de)
  {
    hide CommandsOf, EditText;
    cmds := [];
    var n := |de|;
    assert de[..n] == de;
    while n > 0
      invariant 0 <= n <= |de|
      invariant cmds + ScriptOf(f, m, de[..n]) == ScriptOf(f, m, de)
    {
      assert de[..n][..n - 1] == de[..n - 1];
      var more := WriteEdit(f, m, de[n - 1]);
      assert cmds + (more + ScriptOf(f, m, de[..n - 1])) == (cmds + more) + ScriptOf(f, m, de[..n - 1]);
      cmds := cmds + more;
      n := n - 1;
    }
    assert cmds + [] == cmds;
  }

  // ------------------------------------------------------------ replaying it

  /** The line list of rcs_splitlines(): element 0 is the dummy head, and the
      line number of an element is its index. */
  class LineList {
    var list: seq<Line>

    constructor (ls: seq<Line>)
      ensures list == [""] + ls
    {
      list := [""] + ls;
    }

    /** Move the cursor to line `start`, forwards or backwards. */
    method Seek(dlp: nat, start: nat) returns (at: nat)
      requires dlp < |list| && start < |list|
      ensures at == start
    {
      at := dlp;
      while at != start
        invariant 0 <= at < |list|
        decreases if at < start then start - at else at - start
      {
        if at > start {
          at := at - 1;
        } else {
          at := at + 1;
        }
      }
    }

    method RemoveLines(at: nat, n: nat)
      requires 1 <= at && at + n <= |list|
      modifies this
      ensures list == old(list)[..at] + old(list)[at + n..]
    {
      var i := 0;
      while i < n
        invariant 0 <= i <= n
        invariant list == old(list)[..at] + old(list)[at + i..]
      {
        list := list[..at] + list[at + 1..];
        i := i + 1;
      }
    }

    method InsertAfter(at: nat, lines: seq<Line>) returns (last: nat)
      requires at < |list|
      modifies this
      ensures list == old(list)[..at + 1] + lines + old(list)[at + 1..]
      ensures last == at + |lines|
    {
      last := at;
      var i := 0;
      assert old(list)[..at + 1] + lines[..0] + old(list)[at + 1..] == list;
      while i < |lines|
        invariant 0 <= i <= |lines| && last == at + i
        invariant list == old(list)[..at + 1] + lines[..i] + old(list)[at + 1..]
      {
        list := list[..last + 1] + [lines[i]] + list[last + 1..];
        assert lines[..i + 1] == lines[..i] + [lines[i]];
        last := last + 1;
        i := i + 1;
      }
      assert lines[..i] == lines;
    }

    method Execute(c: Command, dlp: nat) returns (at: nat)
      requires dlp < |list| && Sound(list[1..], c)
      modifies this
      ensures at < |list| && list[0] == old(list[0]) && list[1..] == Apply(old(list[1..]), c)
    {
      ghost var before := list;
      AppliedToList(before, c);
      hide Apply;
      at := Seek(dlp, c.start);
      if c.Replace? {
        RemoveLines(at, c.end - c.start + 1);
        at := at - 1;
      }
      at := InsertAfter(at, c.lines);
    }

    /** ed_patch_lines(): a command that starts past the end is an error. */
    method EdPatchLines(cmds: seq<Command>) returns (r: Outcome)
      requires |list| > 0
      modifies this
      ensures r == Run(old(list[1..]), cmds)
      ensures r.Lines? ==> |list| > 0 && list[0] == old(list[0]) && list[1..] == r.ls
    {
      hide Apply, Sound;
      var dlp := 0;
      var k := 0;
      assert cmds[0..] == cmds;
      while k < |cmds|
        invariant 0 <= k <= |cmds| && 0 <= dlp < |list|
        invariant list[0] == old(list[0])
        invariant Run(list[1..], cmds[k..]) == Run(old(list[1..]), cmds)
      {
        var c := cmds[k];
        var nblines := |list| - 1;
        assert cmds[k..][1..] == cmds[k + 1..] && cmds[k..][0] == c;
        if c.start > nblines || c.start < 0 {
          return Failed;
        }
        if !Sound(list[1..], c) {
          return Undefined;
        }
        dlp := Execute(c, dlp);
        k := k + 1;
      }
      r := Lines(list[1..]);
    }
  }

  /** A command on the whole list, dummy head included. */
  lemma AppliedToList(list: seq<Line>, c: Command)
    requires |list| > 0 && Sound(list[1..], c)
    ensures c.Append? ==> [list[0]] + Apply(list[1..], c) == list[..c.start + 1] + c.lines + list[c.start + 1..]
    ensures c.Replace? ==> [list[0]] + Apply(list[1..], c) == list[..c.start] + c.lines + list[c.end + 1..]
  {
    if c.Append? {
      WithHead(list, c.start, c.start, c.lines);
    } else {
      WithHead(list, c.start - 1, c.end, c.lines);
    }
  }

  lemma WithHead(list: seq<Line>, i: nat, j: nat, lines: seq<Line>)
    requires i <= j < |list|
    ensures [list[0]] + (list[1..][..i] + lines + list[1..][j..]) == list[..i + 1] + lines + list[j + 1..]
  {
    assert [list[0]] + list[1..][..i] == list[..i + 1] && list[1..][j..] == list[j + 1..];
    assert [list[0]] + (list[1..][..i] + lines + list[1..][j..])
           == ([list[0]] + list[1..][..i]) + lines + list[1..][j..];
  }

  // ------------------------------------------------------------ replay is splicing

  lemma {:induction false} EveryEditText(f: Files, de: seq<Edit>, upto: int)
    requires EditsOk(f.f1, f.f2, f.f3, de, upto)
    ensures forall i | 0 <= i < |de| :: EditText(f.f2, f.f3, de[i])
    decreases |de|
  {
    if de != [] {
      var front := de[..|de| - 1];
      EveryEditText(f, front, de[|de| - 1].was.from);
      assert forall i | 0 <= i < |front| :: de[i] == front[i];
    }
  }

  lemma RunStep(ls: seq<Line>, c: Command, rest: seq<Command>)
    requires Sound(ls, c)
    ensures Run(ls, [c] + rest) == Run(Apply(ls, c), rest)
  {
    assert ([c] + rest)[1..] == rest;
  }

  lemma AppendAfter(x: seq<Line>, z: seq<Line>, lines: seq<Line>)
    ensures Apply(x + z, Append(|x|, lines)) == x + lines + z
  {
    assert (x + z)[..|x|] == x && (x + z)[|x|..] == z;
  }

  lemma ReplaceMiddle(x: seq<Line>, y: seq<Line>, z: seq<Line>, lines: seq<Line>)
    requires |y| > 0
    ensures Apply(x + y + z, Replace(|x| + 1, |x| + |y|, lines)) == x + lines + z
  {
    assert (x + y + z)[..|x|] == x && (x + y + z)[|x| + |y|..] == z;
  }

  /** The commands of one edit turn lines x, y, z into x, the replacement of y,
      and z. */
  lemma EditApplied(f: Files, m: Marks, e: Edit, x: seq<Line>, y: seq<Line>, z: seq<Line>, rest: seq<Command>)
    requires EditOk(f.f1, f.f2, f.f3, e)
    requires |x| == e.was.from - 1 && y == Slice(f.f1, e.was.from, e.was.to)
    ensures Run(x + y + z, CommandsOf(f, m, e) + rest) == Run(x + Replacement(m, f.f1, f.f2, f.f3, e) + z, rest)
  {
    hide Run, Apply, Closing;
    if e.overlap {
      ConflictApplied(f, m, e, x, y, z, rest);
    } else if e.was.to <= e.was.from {
      hide Slice;
      SliceLength(f.f1, e.was.from, e.was.to);
      assert x + y + z == x + z;
      AppendAfter(x, z, Text(f.f3, e));
      RunStep(x + y + z, Append(e.was.from - 1, Text(f.f3, e)), rest);
    } else {
      hide Slice;
      SliceLength(f.f1, e.was.from, e.was.to);
      ReplaceMiddle(x, y, z, Text(f.f3, e));
      RunStep(x + y + z, Replace(e.was.from, e.was.to - 1, Text(f.f3, e)), rest);
    }
  }

  lemma ConflictApplied(f: Files, m: Marks, e: Edit, x: seq<Line>, y: seq<Line>, z: seq<Line>, rest: seq<Command>)
    requires EditOk(f.f1, f.f2, f.f3, e) && e.overlap
    requires |x| == e.was.from - 1 && y == Slice(f.f1, e.was.from, e.was.to)
    ensures Run(x + y + z, CommandsOf(f, m, e) + rest) == Run(x + Replacement(m, f.f1, f.f2, f.f3, e) + z, rest)
  {
    hide Run, Apply, Replacement, Slice;
    SliceLength(f.f1, e.was.from, e.was.to);
    ClosedConflict(f, m, e);
    var closing := Closing(f, m, e);
    hide Closing;
    var c1, c2 := Append(e.was.to - 1, closing), Append(e.was.from - 1, [m.f1mark]);
    AppendAfter(x + y, z, closing);
    var ls1 := x + y + closing + z;
    assert ls1 == x + (y + closing + z);
    AppendAfter(x, y + closing + z, [m.f1mark]);
    assert x + [m.f1mark] + (y + closing + z) == x + ([m.f1mark] + y + closing) + z;
    RunStep(ls1, c2, rest);
    RunStep(x + y + z, c1, [c2] + rest);
    assert [c1, c2] + rest == [c1] + ([c2] + rest);
  }

  lemma SliceLength(f: seq<Line>, from: int, to: int)
    requires 1 <= from <= to <= |f| + 1
    ensures |Slice(f, from, to)| == to - from
  {
  }

  lemma ClosedConflict(f: Files, m: Marks, e: Edit)
    requires EditOk(f.f1, f.f2, f.f3, e) && e.overlap
    ensures [m.f1mark] + Slice(f.f1, e.was.from, e.was.to) + Closing(f, m, e) == Replacement(m, f.f1, f.f2, f.f3, e)
  {
  }

  /** Replaying the script bottom up, with renumbering after every command, is
      one left-to-right splice. */
  lemma {:induction false} ReplayIsSplice(f: Files, m: Marks, de: seq<Edit>, upto: int, tail: seq<Line>)
    requires EditsOk(f.f1, f.f2, f.f3, de, upto)
    requires forall i | 0 <= i < |de| :: EditText(f.f2, f.f3, de[i])
    ensures Run(Slice(f.f1, 1, upto) + tail, ScriptOf(f, m, de)) == Lines(Splice(m, f.f1, f.f2, f.f3, de, upto) + tail)
    decreases |de|
  {
    if de != [] {
      var e := de[|de| - 1];
      var front := de[..|de| - 1];
      var repl := Replacement(m, f.f1, f.f2, f.f3, e);
      var z := Slice(f.f1, e.was.to, upto) + tail;
      ReplayIsSplice(f, m, front, e.was.from, repl + z);
      OneMoreEdit(f, m, front, e, upto, tail);
    }
  }

  lemma OneMoreEdit(f: Files, m: Marks, front: seq<Edit>, e: Edit, upto: int, tail: seq<Line>)
    requires EditOk(f.f1, f.f2, f.f3, e) && e.was.to <= upto <= |f.f1| + 1
    requires EditsOk(f.f1, f.f2, f.f3, front, e.was.from)
    requires forall i | 0 <= i < |front| :: EditText(f.f2, f.f3, front[i])
    requires var ls := Slice(f.f1, 1, e.was.from)
                       + (Replacement(m, f.f1, f.f2, f.f3, e) + (Slice(f.f1, e.was.to, upto) + tail));
             && Run(ls, ScriptOf(f, m, front))
                == Lines(Splice(m, f.f1, f.f2, f.f3, front, e.was.from)
                         + (Replacement(m, f.f1, f.f2, f.f3, e) + (Slice(f.f1, e.was.to, upto) + tail)))
    ensures var ls, cmds := Slice(f.f1, 1, upto) + tail, CommandsOf(f, m, e) + ScriptOf(f, m, front);
            && Run(ls, cmds) == Lines(Splice(m, f.f1, f.f2, f.f3, front, e.was.from)
                                      + Replacement(m, f.f1, f.f2, f.f3, e) + Slice(f.f1, e.was.to, upto) + tail)
  {
    hide EditsOk, Run, ScriptOf, Splice;
    assert InFile(f.f1, e.was);
    var x, y, z := Slice(f.f1, 1, e.was.from), Slice(f.f1, e.was.from, e.was.to), Slice(f.f1, e.was.to, upto) + tail;
    var repl := Replacement(m, f.f1, f.f2, f.f3, e);
    var done := Splice(m, f.f1, f.f2, f.f3, front, e.was.from);
    ThreeParts(f.f1, e.was, upto, tail);
    SliceLength(f.f1, 1, e.was.from);
    Regroup(x, repl, z, []);
    Regroup(done, repl, Slice(f.f1, e.was.to, upto), tail);
    EditApplied(f, m, e, x, y, z, ScriptOf(f, m, front));
  }

  lemma ThreeParts(f1: seq<Line>, r: Range, upto: int, tail: seq<Line>)
    requires InFile(f1, r) && r.to <= upto <= |f1| + 1
    ensures Slice(f1, 1, upto) + tail == Slice(f1, 1, r.from) + Slice(f1, r.from, r.to) + (Slice(f1, r.to, upto) + tail)
  {
  }

  lemma Regroup(a: seq<Line>, b: seq<Line>, c: seq<Line>, d: seq<Line>)
    ensures a + (b + c) == a + b + c && a + (b + (c + d)) == a + b + c + d
  {
  }

  // ------------------------------------------------------------ taking every change over

  /** What edits that take changes over make of file 1 is the patched file. */
  lemma {:induction false} GatheredSplice(f: Files, m: Marks, de: seq<Edit>, l: seq<Change>, k: nat)
    requires Gathered(de, l) && Patchable(f.f1, f.f3, l) && k <= |de|
    requires forall i | 0 <= i < |de| :: EditText(f.f2, f.f3, de[i])
    ensures var p := PatchedTo(l, k);
            && Before(f.f1, l, 0, 1) && Before(f.f1, l, k, p) && EditsOk(f.f1, f.f2, f.f3, de[..k], p)
            && Splice(m, f.f1, f.f2, f.f3, de[..k], p) + Patch(f.f1, f.f3, l, k, p) == Patch(f.f1, f.f3, l, 0, 1)
    decreases k
  {
    hide Splice, EditsOk, Slice;
    if k == 0 {
      assert de[..0] == [];
      NoEdits(f, m);
    } else {
      GatheredSplice(f, m, de, l, k - 1);
      var p, e, front := PatchedTo(l, k - 1), de[k - 1], de[..k - 1];
      assert TakesOver(de[k - 1], l[k - 1]);
      assert InFile(f.f1, l[k - 1].was) && InFile(f.f3, l[k - 1].now);
      SpliceFurther(f, m, front, p, e.was.from);
      SpliceAdded(f, m, front, e);
      assert de[..k] == front + [e];
      TakenText(f, m, e, l[k - 1]);
      hide Patchable, InFile, Patch;
      PatchStep(f.f1, f.f3, l, k - 1, p);
      Regroup(Splice(m, f.f1, f.f2, f.f3, front, p), Slice(f.f1, p, e.was.from),
              Slice(f.f3, l[k - 1].now.from, l[k - 1].now.to), Patch(f.f1, f.f3, l, k, l[k - 1].was.to));
    }
  }

  /** The line of file 1 up to which k changes have been taken over. */
  function PatchedTo(l: seq<Change>, k: nat): int
    requires k <= |l|
  {
    if k == 0 then 1 else l[k - 1].was.to
  }

  lemma NoEdits(f: Files, m: Marks)
    ensures EditsOk(f.f1, f.f2, f.f3, [], 1) && Splice(m, f.f1, f.f2, f.f3, [], 1) == []
  {
  }

  lemma TakenText(f: Files, m: Marks, e: Edit, d: Change)
    requires EditOk(f.f1, f.f2, f.f3, e) && TakesOver(e, d) && InFile(f.f3, d.now)
    ensures Replacement(m, f.f1, f.f2, f.f3, e) == Slice(f.f3, d.now.from, d.now.to)
  {
  }

  lemma GatheredReplays(f: Files, m: Marks, de: seq<Edit>, l: seq<Change>)
    requires Gathered(de, l) && Patchable(f.f1, f.f3, l) && forall i | 0 <= i < |de| :: EditText(f.f2, f.f3, de[i])
    ensures Before(f.f1, l, 0, 1)
    ensures Run(f.f1, ScriptOf(f, m, de)) == Lines(Patch(f.f1, f.f3, l, 0, 1))
  {
    hide Splice, EditsOk, Slice, Run, ScriptOf;
    GatheredSplice(f, m, de, l, |de|);
    assert de[..|de|] == de;
    var p, n := PatchedTo(l, |l|), |f.f1| + 1;
    SpliceFurther(f, m, de, p, n);
    EveryEditText(f, de, n);
    WholeFile(f.f1);
    ReplayIsSplice(f, m, de, n, []);
    assert f.f1 + [] == f.f1;
    assert Splice(m, f.f1, f.f2, f.f3, de, n) + [] == Splice(m, f.f1, f.f2, f.f3, de, n);
  }

  // ------------------------------------------------------------ the merge as a whole

  /** Reading past the end of a file, or what the replay leads to. */
  datatype MergeResult = EndOfFile | Done(outcome: Outcome, overlapcnt: nat)

  /** Where only file 1 has changes, files 2 and 3 are alike and file 1 is kept; where
      only file 2 differs from file 3, files 1 and 3 are alike and either is kept;
      where both lists have changes, file 3 is taken if files 1 and 2 are alike, and
      otherwise all three are shown. */
  lemma MergeRule(f: Files, m: Marks, d13: seq<Change>, d23: seq<Change>, hs: seq<Hunk>, gs: seq<Group>, t: nat)
    requires Grouped(f, d13, d23, hs, gs) && t < |gs| && forall i | 0 <= i < |hs| :: HunkOk(hs[i])
    ensures var g, h := gs[t], hs[2 * t + 1];
            && (g.i2 == g.j2 ==> h.o == h.b && Resolve(m, h) == h.a)
            && (g.i1 == g.j1 ==> h.a == h.b && Resolve(m, h) == h.a)
            && (g.i1 < g.j1 && g.i2 < g.j2 ==>
                  Resolve(m, h) == if h.a == h.o then h.b else ConflictBlock(m, h.a, h.base, h.b))
  {
    hide AllCovered, Within, Apart, HunkIs, ConflictBlock;
    assert GroupAt(f, d13, d23, hs, gs, t);
  }

  /** got_merge_diff3() without its files: merge, write the script, replay it on
      file 1. Over true change lists the three files split into aligned hunks and the
      output is their resolution. With nothing in one list, file 1 is the output,
      whatever is in the other. With the same list twice, and files 1 and 2 alike,
      every change in it is taken over. */
  method MergeFiles(f: Files, m: Marks, d13: seq<Change>, d23: seq<Change>)
    returns (r: MergeResult, ghost hs: seq<Hunk>, ghost gs: seq<Group>)
    requires Readable(f.f3, d13) && Readable(f.f3, d23)
    ensures ChangeList(f.f1, f.f3, d13) && ChangeList(f.f2, f.f3, d23) ==>
              && (forall i | 0 <= i < |hs| :: HunkOk(hs[i]))
              && FileA(hs) == f.f1 && FileO(hs) == f.f2 && FileB(hs) == f.f3
              && Grouped(f, d13, d23, hs, gs)
              && r == Done(Lines(ResolveAll(m, hs)), Conflicts(hs))
              && (r.overlapcnt == 0 <==> forall t | 0 <= t < |gs| && gs[t].i1 < gs[t].j1 && gs[t].i2 < gs[t].j2 ::
                                           hs[2 * t + 1].a == hs[2 * t + 1].o)
              && ((forall k, l | 0 <= k < |d13| && 0 <= l < |d23| :: !Touch(d13[k].now, d23[l].now)) ==>
                    r.overlapcnt == 0)
    ensures d13 == [] || d23 == [] ==> r == Done(Lines(f.f1), 0)
    ensures d13 == d23 && f.f1 == f.f2 && Lockable(f.f1, d13) ==>
              && Patchable(f.f1, f.f3, Collapsed(d13)) && Before(f.f1, Collapsed(d13), 0, 1)
              && r == Done(Lines(Patch(f.f1, f.f3, Collapsed(d13), 0, 1)), 0)
    ensures d13 == d23 && f.f1 == f.f2 && ChangeList(f.f1, f.f3, d13) ==> r == Done(Lines(f.f3), 0)
  {
    hide Run, EditsOk, Splice, ScriptOf, EditText, ChangeList, Merged, Grouped, Patchable, Patch, Lockable, Readable,
      Collapsed;
    var d3s := new Diff3State(f, d13, d23);
    var eof;
    eof, hs, gs := d3s.Merge(m);
    if eof {
      return EndOfFile, hs, gs;
    }
    ghost var good := ChangeList(f.f1, f.f3, d13) && ChangeList(f.f2, f.f3, d23);
    if good {
      ScriptReplays(f, m, d3s.de, d3s.overlapcnt, hs);
      ConflictsAreMixed(f, d13, d23, hs, gs);
      if d3s.overlapcnt != 0 {
        ghost var k, l := ConflictTouches(f, d13, d23, hs, gs);
      }
    }
    if d13 == d23 && f.f1 == f.f2 {
      if ChangeList(f.f1, f.f3, d13) {
        TrueListTaken(f.f1, f.f3, d13);
      }
      if Lockable(f.f1, d13) {
        CollapsedIsPatchable(f.f1, f.f3, d13);
        GatheredReplays(f, m, d3s.de, Collapsed(d13));
      }
    }
    NothingToReplay(f, m, f.f1);
    var cmds := EdScript(f, m, d3s.de);
    var lines := new LineList(f.f1);
    assert lines.list[1..] == f.f1;
    var outcome := lines.EdPatchLines(cmds);
    r := Done(outcome, d3s.overlapcnt);
  }

  lemma NothingToReplay(f: Files, m: Marks, ls: seq<Line>)
    ensures Run(ls, ScriptOf(f, m, [])) == Lines(ls)
  {
  }

  lemma ScriptReplays(f: Files, m: Marks, de: seq<Edit>, n: nat, hs: seq<Hunk>)
    requires Merged(f, m, de, n, hs)
    ensures forall i | 0 <= i < |hs| :: HunkOk(hs[i])
    ensures FileA(hs) == f.f1 && FileO(hs) == f.f2 && FileB(hs) == f.f3 && Conflicts(hs) == n
    ensures forall i | 0 <= i < |de| :: EditText(f.f2, f.f3, de[i])
    ensures Run(f.f1, ScriptOf(f, m, de)) == Lines(ResolveAll(m, hs))
  {
    EveryEditText(f, de, |f.f1| + 1);
    WholeFile(f.f1);
    ReplayIsSplice(f, m, de, |f.f1| + 1, []);
    assert f.f1 + [] == f.f1;
    assert ResolveAll(m, hs) + [] == ResolveAll(m, hs);
  }

  lemma NoChangesNoDifference(a: seq<Line>, c: seq<Line>)
    requires ChangeList(a, c, [])
    ensures a == c
  {
    WholeFile(a);
    WholeFile(c);
  }
}