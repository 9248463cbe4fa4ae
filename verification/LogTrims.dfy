/** Keeping a log file small by copy-truncate (src/log_trim.rs): the live file and its numbered
    copies, against everything ever written. */
module LogTrims {
  import opened Wrappers

  type Copies<T> = map<nat, seq<T>>

  /** The live file, if there is one, and the copies beside it by number. */
  datatype Files<T> = Files(live: Option<seq<T>>, copies: Copies<T>)

  /** What can go wrong, or come between: the renames that fail, how much is copied before the
      copy fails (all of it if it does not), what others append behind the copied part before the
      truncation, and whether the truncation succeeds. */
  datatype Chance<T> = Chance(readable: bool, stuck: set<nat>, copied: Option<nat>, late: seq<T>, truncates: bool)

  datatype Trimmed = Size(size: nat) | Nothing | Failed

  function LiveOf<T>(f: Files<T>): seq<T> {
    match f.live case Some(live) => live case None => []
  }

  // ----- Shifting the copies

  function Rename<T>(c: Copies<T>, from: nat, to: nat): Copies<T> {
    if from in c then (c - {from})[to := c[from]] else c
  }

  /** The renames of `n`, `n - 1`, ..., 1 up by one, to the first that fails. */
  function Shift<T>(c: Copies<T>, n: nat, stuck: set<nat>): (Copies<T>, bool)
    decreases n
  {
    if n == 0 then (c, true)
    else if n in stuck && n in c then (c, false)
    else Shift(Rename(c, n, n + 1), n - 1, stuck)
  }

  function Copied<T>(live: seq<T>, copied: Option<nat>): seq<T> {
    match copied
    case Some(k) => if k <= |live| then live[..k] else live
    case None => live
  }

  function Trimming<T>(f: Files<T>, maxBytes: nat, keep: nat, chance: Chance<T>): (Files<T>, Trimmed) {
    if f.live.None? then (f, Nothing)
    else if !chance.readable then (f, Failed)
    else
      var live := f.live.value;
      if |live| <= maxBytes || keep == 0 then (f, Nothing)
      else
        var (copies, shifted) := Shift(f.copies, keep - 1, chance.stuck);
        if !shifted then (Files(f.live, copies), Failed)
        else
          var copies := copies[1 := Copied(live, chance.copied)];
          if chance.copied.Some? then (Files(f.live, copies), Failed)
          else if !chance.truncates then (Files(Some(live + chance.late), copies), Failed)
          else (Files(Some([]), copies), Size(|live|))
  }

  // ----- Everything still in the files

  function CopyAt<T>(c: Copies<T>, n: nat): seq<T> {
    if n in c then c[n] else []
  }

  /** Copies `n` down to 1, one behind the other. */
  function Stack<T>(c: Copies<T>, n: nat): seq<T> {
    if n == 0 then [] else CopyAt(c, n) + Stack(c, n - 1)
  }

  function Contents<T>(f: Files<T>, keep: nat): seq<T> {
    Stack(f.copies, keep) + LiveOf(f)
  }

  predicate IsSuffix<T(==)>(a: seq<T>, b: seq<T>) {
    |a| <= |b| && b[|b| - |a|..] == a
  }

  lemma SuffixOfSuffix<T>(a: seq<T>, b: seq<T>, c: seq<T>)
    requires IsSuffix(a, b) && IsSuffix(b, c)
    ensures IsSuffix(a, c)
  {
    assert c[|c| - |a|..] == c[|c| - |b|..][|b| - |a|..];
  }

  lemma SuffixGrows<T>(a: seq<T>, b: seq<T>, x: seq<T>)
    requires IsSuffix(a, b)
    ensures IsSuffix(a + x, b + x)
  {
  }

  lemma TailIsSuffix<T>(a: seq<T>, b: seq<T>)
    ensures IsSuffix(b, a + b)
  {
  }

  lemma {:induction false} StackElsewhere<T>(c: Copies<T>, d: Copies<T>, n: nat)
    requires forall k | 1 <= k <= n :: CopyAt(c, k) == CopyAt(d, k)
    ensures Stack(c, n) == Stack(d, n)
  {
    if n > 0 {
      StackElsewhere(c, d, n - 1);
    }
  }

  /** Renaming into a gap keeps the contents. */
  lemma {:induction false} RenameIntoGap<T>(c: Copies<T>, n: nat, top: nat)
    requires 1 <= n < top && n + 1 !in c
    ensures Stack(Rename(c, n, n + 1), top) == Stack(c, top)
    decreases top
  {
    var c' := Rename(c, n, n + 1);
    if top == n + 1 {
      StackElsewhere(c, c', n - 1);
      assert Stack(c, top) == [] + (CopyAt(c, n) + Stack(c, n - 1));
      assert Stack(c', top) == CopyAt(c, n) + ([] + Stack(c, n - 1));
    } else {
      RenameIntoGap(c, n, top - 1);
      assert CopyAt(c', top) == CopyAt(c, top);
    }
  }

  /** Renaming onto the top copy drops that one, or nothing. */
  lemma RenameOntoTop<T>(c: Copies<T>, n: nat)
    requires 1 <= n
    ensures IsSuffix(Stack(Rename(c, n, n + 1), n + 1), Stack(c, n + 1))
  {
    if n in c {
      var c' := Rename(c, n, n + 1);
      StackElsewhere(c, c', n - 1);
      assert Stack(c', n + 1) == CopyAt(c, n) + ([] + Stack(c, n - 1)) == Stack(c, n);
      TailIsSuffix(CopyAt(c, n + 1), Stack(c, n));
    } else {
      TailIsSuffix([], Stack(c, n + 1));
    }
  }

  lemma {:induction false} ShiftIntoGap<T>(c: Copies<T>, n: nat, top: nat, stuck: set<nat>)
    requires n < top && n + 1 !in c
    ensures Stack(Shift(c, n, stuck).0, top) == Stack(c, top)
    ensures Shift(c, n, stuck).1 ==> 1 !in Shift(c, n, stuck).0
    decreases n
  {
    if n > 0 && !(n in stuck && n in c) {
      RenameIntoGap(c, n, top);
      ShiftIntoGap(Rename(c, n, n + 1), n - 1, top, stuck);
    }
  }

  /** Shifting drops at most the top copy, wherever it fails; and done, it leaves room. */
  lemma ShiftKeeps<T>(c: Copies<T>, keep: nat, stuck: set<nat>)
    requires keep > 0
    ensures IsSuffix(Stack(Shift(c, keep - 1, stuck).0, keep), Stack(c, keep))
    ensures keep > 1 && Shift(c, keep - 1, stuck).1 ==> 1 !in Shift(c, keep - 1, stuck).0
  {
    var n := keep - 1;
    TailIsSuffix([], Stack(c, keep));
    if n > 0 && !(n in stuck && n in c) {
      RenameOntoTop(c, n);
      ShiftIntoGap(Rename(c, n, n + 1), n - 1, keep, stuck);
    }
  }

  lemma {:induction false} StackOfNewest<T>(c: Copies<T>, x: seq<T>, keep: nat)
    requires keep > 0 && 1 !in c
    ensures Stack(c[1 := x], keep) == Stack(c, keep) + x
  {
    if keep == 1 {
      assert Stack(c[1 := x], 1) == x + [] && Stack(c, 1) == [];
    } else {
      StackOfNewest(c, x, keep - 1);
      assert CopyAt(c, keep) + (Stack(c, keep - 1) + x) == (CopyAt(c, keep) + Stack(c, keep - 1)) + x;
    }
  }

  // ----- One trim

  /** The trim comes as far as copying the live file. */
  predicate ComesToCopy<T>(f: Files<T>, maxBytes: nat, keep: nat, chance: Chance<T>) {
    && f.live.Some? && chance.readable && |f.live.value| > maxBytes && keep > 0
    && Shift(f.copies, keep - 1, chance.stuck).1
  }

  /** What others write while the live file is copied and truncated. */
  function Late<T>(f: Files<T>, maxBytes: nat, keep: nat, chance: Chance<T>): seq<T> {
    if ComesToCopy(f, maxBytes, keep, chance) && chance.copied.None? then chance.late else []
  }

  /** The copy fails before its first byte, or all is copied, nothing comes between, and the live
      file is truncated. */
  predicate IsClean<T>(f: Files<T>, maxBytes: nat, keep: nat, chance: Chance<T>) {
    ComesToCopy(f, maxBytes, keep, chance) ==>
      if chance.copied.Some? then chance.copied.value == 0
      else chance.truncates && |chance.late| == 0
  }

  /** A trim that fails before copying drops at most the oldest copy. */
  lemma TrimBeforeCopy<T>(f: Files<T>, maxBytes: nat, keep: nat, chance: Chance<T>)
    requires !ComesToCopy(f, maxBytes, keep, chance)
    ensures IsSuffix(Contents(Trimming(f, maxBytes, keep, chance).0, keep), Contents(f, keep))
  {
    TailIsSuffix([], Contents(f, keep));
    if f.live.Some? && chance.readable && |f.live.value| > maxBytes && keep > 0 {
      ShiftKeeps(f.copies, keep, chance.stuck);
      SuffixGrows(Stack(Shift(f.copies, keep - 1, chance.stuck).0, keep), Stack(f.copies, keep), f.live.value);
    }
  }

  /** What is above the newest copy, once that is put in place. */
  lemma CopyGoesOn<T>(c: Copies<T>, keep: nat, stuck: set<nat>, copy: seq<T>) returns (older: seq<T>)
    requires keep > 0 && Shift(c, keep - 1, stuck).1
    ensures IsSuffix(older, Stack(c, keep))
    ensures Stack(Shift(c, keep - 1, stuck).0[1 := copy], keep) == older + copy
  {
    var copies := Shift(c, keep - 1, stuck).0;
    ShiftKeeps(c, keep, stuck);
    if keep > 1 {
      StackOfNewest(copies, copy, keep);
      older := Stack(copies, keep);
    } else {
      assert Stack(copies[1 := copy], 1) == copy + [];
      older := [];
    }
  }

  /** Contents after a trim that comes to copying: the copies, then what was copied, then what
      the live file holds. */
  lemma TrimCopies<T>(f: Files<T>, maxBytes: nat, keep: nat, chance: Chance<T>)
    returns (older: seq<T>)
    requires ComesToCopy(f, maxBytes, keep, chance)
    ensures IsSuffix(older, Stack(f.copies, keep))
    ensures var after := Trimming(f, maxBytes, keep, chance).0;
            Contents(after, keep) == older + Copied(f.live.value, chance.copied) + LiveOf(after)
  {
    older := CopyGoesOn(f.copies, keep, chance.stuck, Copied(f.live.value, chance.copied));
  }

  lemma TrimKeepsSuffix<T>(f: Files<T>, maxBytes: nat, keep: nat, chance: Chance<T>, written: seq<T>)
    requires IsSuffix(Contents(f, keep), written) && IsClean(f, maxBytes, keep, chance)
    ensures IsSuffix(Contents(Trimming(f, maxBytes, keep, chance).0, keep), written + Late(f, maxBytes, keep, chance))
  {
    var after := Trimming(f, maxBytes, keep, chance).0;
    assert written + [] == written;
    if ComesToCopy(f, maxBytes, keep, chance) {
      var older := TrimCopies(f, maxBytes, keep, chance);
      SuffixGrows(older, Stack(f.copies, keep), f.live.value);
      assert Contents(after, keep) == older + f.live.value;
    } else {
      TrimBeforeCopy(f, maxBytes, keep, chance);
    }
    SuffixOfSuffix(Contents(after, keep), Contents(f, keep), written);
  }

  predicate NoRepeats<T(==)>(s: seq<T>) {
    forall i, j | 0 <= i < j < |s| :: s[i] != s[j]
  }

  lemma RepeatIsNoSuffix<T>(a: seq<T>, b: seq<T>, i: nat, j: nat)
    requires NoRepeats(b) && i < j < |a| && a[i] == a[j]
    ensures !IsSuffix(a, b)
  {
    if |a| <= |b| {
      var d := |b| - |a|;
      assert b[d..][i] == b[d + i] && b[d..][j] == b[d + j];
    }
  }

  lemma OtherEndIsNoSuffix<T>(a: seq<T>, b: seq<T>)
    requires a != [] && b != [] && a[|a| - 1] != b[|b| - 1]
    ensures !IsSuffix(a, b)
  {
    if |a| <= |b| {
      assert b[|b| - |a|..][|a| - 1] == b[|b| - 1];
    }
  }

  /** A trim that copies but does not truncate leaves lines twice. */
  lemma UncleanRepeats<T>(f: Files<T>, maxBytes: nat, keep: nat, chance: Chance<T>, written: seq<T>)
    requires ComesToCopy(f, maxBytes, keep, chance) && NoRepeats(written)
    requires if chance.copied.Some? then chance.copied.value > 0 else !chance.truncates
    ensures !IsSuffix(Contents(Trimming(f, maxBytes, keep, chance).0, keep), written)
  {
    var after := Trimming(f, maxBytes, keep, chance).0;
    var older := TrimCopies(f, maxBytes, keep, chance);
    var copy, all := Copied(f.live.value, chance.copied), Contents(after, keep);
    assert all[|older|] == copy[0] == f.live.value[0];
    assert all[|older| + |copy|] == LiveOf(after)[0] == f.live.value[0];
    RepeatIsNoSuffix(all, written, |older|, |older| + |copy|);
  }

  /** A trim that truncates after more was written loses that. */
  lemma UncleanLoses<T>(f: Files<T>, maxBytes: nat, keep: nat, chance: Chance<T>, written: seq<T>)
    requires ComesToCopy(f, maxBytes, keep, chance) && NoRepeats(written + chance.late)
    requires chance.copied.None? && chance.truncates && chance.late != []
    requires IsSuffix(Contents(f, keep), written)
    ensures !IsSuffix(Contents(Trimming(f, maxBytes, keep, chance).0, keep), written + chance.late)
  {
    var after := Trimming(f, maxBytes, keep, chance).0;
    var older := TrimCopies(f, maxBytes, keep, chance);
    var live, all, now := f.live.value, Contents(after, keep), written + chance.late;
    assert all == older + live;
    assert all[|all| - 1] == live[|live| - 1] == Contents(f, keep)[|Contents(f, keep)| - 1] == written[|written| - 1];
    assert now[|written| - 1] == written[|written| - 1];
    OtherEndIsNoSuffix(all, now);
  }

  /** With no line written twice: what the files hold, oldest first, stays a contiguous suffix of
      everything written if and only if the trim is clean. */
  lemma TrimKeepsSuffixIff<T>(f: Files<T>, maxBytes: nat, keep: nat, chance: Chance<T>, written: seq<T>)
    requires IsSuffix(Contents(f, keep), written) && NoRepeats(written + Late(f, maxBytes, keep, chance))
    ensures IsSuffix(Contents(Trimming(f, maxBytes, keep, chance).0, keep), written + Late(f, maxBytes, keep, chance))
            <==> IsClean(f, maxBytes, keep, chance)
  {
    if IsClean(f, maxBytes, keep, chance) {
      TrimKeepsSuffix(f, maxBytes, keep, chance, written);
    } else if chance.copied.Some? || !chance.truncates {
      UncleanRepeats(f, maxBytes, keep, chance, written + Late(f, maxBytes, keep, chance));
    } else {
      UncleanLoses(f, maxBytes, keep, chance, written);
    }
  }

  // ----- What a trim answers and leaves

  /** A copy is there and cannot be renamed. */
  predicate IsStuck<T>(c: Copies<T>, n: nat, stuck: set<nat>) {
    exists k :: 1 <= k <= n && k in stuck && k in c
  }

  lemma StuckBelow<T>(c: Copies<T>, n: nat, stuck: set<nat>)
    requires n > 0 && !(n in stuck && n in c)
    ensures IsStuck(Rename(c, n, n + 1), n - 1, stuck) <==> IsStuck(c, n, stuck)
  {
    var c' := Rename(c, n, n + 1);
    assert forall k | 1 <= k < n :: k in c' <==> k in c;
  }

  lemma {:induction false} ShiftFailsIff<T>(c: Copies<T>, n: nat, stuck: set<nat>)
    ensures Shift(c, n, stuck).1 <==> !IsStuck(c, n, stuck)
    decreases n
  {
    if n > 0 && !(n in stuck && n in c) {
      StuckBelow(c, n, stuck);
      ShiftFailsIff(Rename(c, n, n + 1), n - 1, stuck);
    }
  }

  /** Where the copy at `k` comes from when those up to `n` are shifted. */
  function Origin<T>(c: Copies<T>, k: nat, n: nat): nat {
    if 2 <= k <= n + 1 && k - 1 in c then k - 1 else k
  }

  /** Copy `k` of `d` is the one of `c` that comes there; the place of one that moved and that none
      took is empty. */
  predicate ComesFrom<T(==)>(c: Copies<T>, d: Copies<T>, k: nat, n: nat) {
    var from := Origin(c, k, n);
    && (k in d <==> from in c && (from < k || k == 0 || k > n))
    && (k in d ==> d[k] == c[from])
  }

  lemma {:induction false} ShiftMoves<T>(c: Copies<T>, n: nat, stuck: set<nat>, k: nat)
    requires Shift(c, n, stuck).1
    ensures ComesFrom(c, Shift(c, n, stuck).0, k, n)
    decreases n
  {
    if n > 0 {
      ShiftMoves(Rename(c, n, n + 1), n - 1, stuck, k);
    }
  }

  /** What a trim answers and makes of the live file.  One that is missing or small is left alone.  One
      too large is left too, and the trim fails, if it cannot be read, or a copy that is there cannot
      be renamed, or not all of it could be copied.  Otherwise it fails if the file cannot be
      truncated; and else the file is empty and its size is answered. */
  lemma TrimAnswers<T>(f: Files<T>, maxBytes: nat, keep: nat, chance: Chance<T>)
    ensures var (f', r) := Trimming(f, maxBytes, keep, chance);
            if f.live.None? then f' == f && r == Nothing
            else if !chance.readable then f' == f && r == Failed
            else if |f.live.value| <= maxBytes || keep == 0 then f' == f && r == Nothing
            else if IsStuck(f.copies, keep - 1, chance.stuck) || chance.copied.Some? then
              f'.live == f.live && r == Failed
            else if !chance.truncates then f'.live == Some(f.live.value + chance.late) && r == Failed
            else f'.live == Some([]) && r == Size(|f.live.value|)
  {
    if keep > 0 {
      ShiftFailsIff(f.copies, keep - 1, chance.stuck);
    }
  }

  /** What it makes of the copies once they are shifted: `.1` is what was copied of the live file, all
      of it or its beginning, and every other is where the shift put it. */
  lemma TrimLeaves<T>(f: Files<T>, maxBytes: nat, keep: nat, chance: Chance<T>, k: nat)
    requires f.live.Some? && chance.readable && |f.live.value| > maxBytes && keep > 0
    requires !IsStuck(f.copies, keep - 1, chance.stuck)
    ensures var copies := Trimming(f, maxBytes, keep, chance).0.copies;
            && 1 in copies && copies[1] <= f.live.value
            && (match chance.copied
                case None => copies[1] == f.live.value
                case Some(n) => n <= |f.live.value| ==> |copies[1]| == n)
            && (k != 1 ==> ComesFrom(f.copies, copies, k, keep - 1))
  {
    ShiftFailsIff(f.copies, keep - 1, chance.stuck);
    ShiftMoves(f.copies, keep - 1, chance.stuck, k);
  }

  // ----- Runs

  datatype Event<T> = Append(lines: seq<T>) | TrimLog(maxBytes: nat, chance: Chance<T>)

  datatype World<T> = World(files: Files<T>, written: seq<T>)

  function Next<T>(w: World<T>, e: Event<T>, keep: nat): World<T> {
    match e
    case Append(lines) => World(w.files.(live := Some(LiveOf(w.files) + lines)), w.written + lines)
    case TrimLog(maxBytes, chance) =>
      World(Trimming(w.files, maxBytes, keep, chance).0, w.written + Late(w.files, maxBytes, keep, chance))
  }

  function Exec<T>(es: seq<Event<T>>, keep: nat): World<T> {
    if es == [] then World(Files(None, map[]), [])
    else Next(Exec(es[..|es| - 1], keep), es[|es| - 1], keep)
  }

  /** What is appended ends what was written and, until it is trimmed, the live file. */
  lemma AppendedIsLast<T>(es: seq<Event<T>>, lines: seq<T>, keep: nat)
    ensures var w, w' := Exec(es, keep), Exec(es + [Append(lines)], keep);
            && w'.written == w.written + lines && w'.files.copies == w.files.copies
            && w'.files.live == Some(LiveOf(w.files) + lines)
  {
    assert (es + [Append(lines)])[..|es|] == es;
  }

  predicate IsCleanStep<T>(w: World<T>, e: Event<T>, keep: nat) {
    e.TrimLog? ==> IsClean(w.files, e.maxBytes, keep, e.chance)
  }

  lemma AppendKeepsSuffix<T>(w: World<T>, lines: seq<T>, keep: nat)
    requires IsSuffix(Contents(w.files, keep), w.written)
    ensures IsSuffix(Contents(Next(w, Append(lines), keep).files, keep), w.written + lines)
  {
    SuffixGrows(Contents(w.files, keep), w.written, lines);
    assert Stack(w.files.copies, keep) + (LiveOf(w.files) + lines) == Contents(w.files, keep) + lines;
  }

  /** Over any run of appends and clean trims, failed ones among them, the copies `.keep` to `.1`
      and the live file hold a contiguous suffix of everything ever written. */
  lemma {:induction false} FilesHoldSuffix<T>(es: seq<Event<T>>, keep: nat)
    requires forall i | 0 <= i < |es| :: IsCleanStep(Exec(es[..i], keep), es[i], keep)
    ensures IsSuffix(Contents(Exec(es, keep).files, keep), Exec(es, keep).written)
  {
    if es == [] {
      NothingHeld<T>(keep);
    } else {
      var n := |es| - 1;
      var before := es[..n];
      forall i | 0 <= i < n
        ensures IsCleanStep(Exec(before[..i], keep), before[i], keep)
      {
        assert before[..i] == es[..i];
      }
      FilesHoldSuffix(before, keep);
      var w := Exec(before, keep);
      assert IsCleanStep(w, es[n], keep);
      match es[n] {
        case Append(lines) => AppendKeepsSuffix(w, lines, keep);
        case TrimLog(maxBytes, chance) => TrimKeepsSuffix(w.files, maxBytes, keep, chance, w.written);
      }
    }
  }

  lemma NothingHeld<T>(keep: nat)
    ensures Stack<T>(map[], keep) == []
  {
    if keep > 0 {
      NothingHeld<T>(keep - 1);
    }
  }

  // ----- Generations

  /** The numbered copies are the newest generations: `.1` is the newest. */
  ghost predicate AreNewest<T>(c: Copies<T>, generations: seq<seq<T>>, keep: nat) {
    forall k: nat {:trigger k in c} ::
      && (k in c <==> 1 <= k <= keep && k <= |generations|)
      && (k in c ==> c[k] == generations[|generations| - k])
  }

  /** Copies 1 to `n` of `c` are copies 2 to `n + 1` of `d`, and the others as they were. */
  ghost predicate MovedUp<T>(c: Copies<T>, d: Copies<T>, n: nat) {
    forall k: nat {:trigger k in d} ::
      && (k in d <==> if 2 <= k <= n + 1 then k - 1 in c else k in c && (n == 0 || k != 1))
      && (k in d ==> d[k] == if 2 <= k <= n + 1 then c[k - 1] else c[k])
  }

  /** Copies without gaps all move up by one. */
  lemma {:induction false} ShiftMovesUp<T>(c: Copies<T>, n: nat, stuck: set<nat>)
    requires Shift(c, n, stuck).1
    requires forall k | 2 <= k <= n + 1 && k in c :: k - 1 in c
    ensures MovedUp(c, Shift(c, n, stuck).0, n)
    decreases n
  {
    if n > 0 {
      ShiftMovesUp(Rename(c, n, n + 1), n - 1, stuck);
    }
  }

  lemma MovedUpIsNewest<T>(c: Copies<T>, d: Copies<T>, generations: seq<seq<T>>, keep: nat,
                           x: seq<T>)
    requires keep > 0 && AreNewest(c, generations, keep) && MovedUp(c, d, keep - 1)
    ensures AreNewest(d[1 := x], generations + [x], keep)
  {
  }

  lemma TrimmedCopies<T>(f: Files<T>, maxBytes: nat, keep: nat, chance: Chance<T>)
    requires Trimming(f, maxBytes, keep, chance).1.Size?
    ensures keep > 0 && f.live.Some? && Shift(f.copies, keep - 1, chance.stuck).1
    ensures Trimming(f, maxBytes, keep, chance).0.copies
         == Shift(f.copies, keep - 1, chance.stuck).0[1 := f.live.value]
  {
  }

  lemma ShiftAddsGeneration<T>(c: Copies<T>, keep: nat, stuck: set<nat>, x: seq<T>,
                               generations: seq<seq<T>>)
    requires keep > 0 && AreNewest(c, generations, keep) && Shift(c, keep - 1, stuck).1
    ensures AreNewest(Shift(c, keep - 1, stuck).0[1 := x], generations + [x], keep)
  {
    ShiftMovesUp(c, keep - 1, stuck);
    MovedUpIsNewest(c, Shift(c, keep - 1, stuck).0, generations, keep, x);
  }

  lemma TrimAddsGeneration<T>(f: Files<T>, maxBytes: nat, keep: nat, chance: Chance<T>,
                              generations: seq<seq<T>>)
    requires AreNewest(f.copies, generations, keep)
    requires Trimming(f, maxBytes, keep, chance).1.Size?
    ensures AreNewest(Trimming(f, maxBytes, keep, chance).0.copies, generations + [f.live.value], keep)
  {
    TrimmedCopies(f, maxBytes, keep, chance);
    ShiftAddsGeneration(f.copies, keep, chance.stuck, f.live.value, generations);
  }

  /** What a step trims. */
  function Added<T>(w: World<T>, e: Event<T>, keep: nat): seq<seq<T>> {
    if e.TrimLog? && Trimming(w.files, e.maxBytes, keep, e.chance).1.Size? then [w.files.live.value] else []
  }

  /** What was trimmed, in order. */
  function Generations<T>(es: seq<Event<T>>, keep: nat): seq<seq<T>> {
    if es == [] then []
    else
      var n := |es| - 1;
      Generations(es[..n], keep) + Added(Exec(es[..n], keep), es[n], keep)
  }

  predicate Fails<T>(w: World<T>, e: Event<T>, keep: nat) {
    e.TrimLog? && Trimming(w.files, e.maxBytes, keep, e.chance).1.Failed?
  }

  lemma NextAddsGeneration<T>(w: World<T>, e: Event<T>, keep: nat, generations: seq<seq<T>>)
    requires AreNewest(w.files.copies, generations, keep) && !Fails(w, e, keep)
    ensures AreNewest(Next(w, e, keep).files.copies, generations + Added(w, e, keep), keep)
  {
    if Added(w, e, keep) == [] {
      assert generations + [] == generations;
    } else {
      TrimAddsGeneration(w.files, e.maxBytes, keep, e.chance, generations);
    }
  }

  /** Over any run without a failed trim the numbered copies are the most recent generations,
      newest first, at most `keep` of them. */
  lemma {:induction false} CopiesAreGenerations<T>(es: seq<Event<T>>, keep: nat)
    requires forall i | 0 <= i < |es| :: !Fails(Exec(es[..i], keep), es[i], keep)
    ensures AreNewest(Exec(es, keep).files.copies, Generations(es, keep), keep)
  {
    if es != [] {
      var n := |es| - 1;
      var before := es[..n];
      forall i | 0 <= i < n
        ensures !Fails(Exec(before[..i], keep), before[i], keep)
      {
        assert before[..i] == es[..i];
      }
      CopiesAreGenerations(before, keep);
      assert !Fails(Exec(before, keep), es[n], keep);
      NextAddsGeneration(Exec(before, keep), es[n], keep, Generations(before, keep));
    }
  }

  // ----- The files

  class LogFiles<T> {
    var live: Option<seq<T>>
    var copies: Copies<T>

    function View(): Files<T>
      reads this
    {
      Files(live, copies)
    }

    method RenameUp(n: nat, stuck: set<nat>) returns (ok: bool)
      modifies this`copies
      ensures ok == !(n in stuck && n in old(copies))
      ensures copies == if ok then Rename(old(copies), n, n + 1) else old(copies)
    {
      if n in copies {
        if n in stuck {
          return false;
        }
        copies := (copies - {n})[n + 1 := copies[n]];
      }
      ok := true;
    }

    method Trim(maxBytes: nat, keep: nat, chance: Chance<T>) returns (r: Trimmed)
      modifies this
      ensures (View(), r) == Trimming(old(View()), maxBytes, keep, chance)
    {
      if live.None? {
        return Nothing;
      }
      if !chance.readable {
        return Failed;
      }
      var size := |live.value|;
      if size <= maxBytes || keep == 0 {
        return Nothing;
      }
      var n := keep - 1;
      while n >= 1
        invariant 0 <= n < keep
        invariant Shift(copies, n, chance.stuck) == Shift(old(copies), keep - 1, chance.stuck)
        invariant live == old(live)
      {
        var ok := RenameUp(n, chance.stuck);
        if !ok {
          return Failed;
        }
        n := n - 1;
      }
      copies := copies[1 := Copied(live.value, chance.copied)];
      if chance.copied.Some? {
        return Failed;
      }
      live := Some(live.value + chance.late);
      if !chance.truncates {
        return Failed;
      }
      live := Some([]);
      r := Size(size);
    }
  }
}
