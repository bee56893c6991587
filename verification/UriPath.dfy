/** websNormalizeUriPath of http.c: a path cut at its slashes, its segments compacted in place, and
    what is left joined again.  Segments are strings where the C code has pointers into a copy. */
module UriPath {
  import opened Ascii
  import opened Wrappers

  // ---------------------------------------------------------------- cutting and joining

  predicate SlashFree(s: string) {
    forall i :: 0 <= i < |s| ==> s[i] != '/'
  }

  function FirstSlash(p: string): (k: nat)
    ensures k <= |p| && SlashFree(p[..k]) && (k < |p| ==> p[k] == '/')
  {
    if p == "" || p[0] == '/' then 0
    else
      var k := 1 + FirstSlash(p[1..]);
      assert p[..k] == [p[0]] + p[1..][..k - 1];
      k
  }

  function DropSlashes(p: string): (r: string)
    ensures |r| <= |p| && (r == "" || r[0] != '/')
  {
    if p != "" && p[0] == '/' then DropSlashes(p[1..]) else p
  }

  /** The segments: what is between slashes, a run of them counting as one. */
  function Split(p: string): (segs: seq<string>)
    ensures |segs| >= 1
    decreases |p|
  {
    var k := FirstSlash(p);
    if k == |p| then [p] else [p[..k]] + Split(DropSlashes(p[k + 1..]))
  }

  function Join(segs: seq<string>): string {
    if segs == [] then ""
    else if |segs| == 1 then segs[0]
    else segs[0] + "/" + Join(segs[1..])
  }

  /** What the last loop writes: a lone empty segment of a path that began with a slash is "/". */
  function Rebuilt(segs: seq<string>, rooted: bool): string {
    if |segs| == 1 && segs[0] == "" && rooted then "/" else Join(segs)
  }

  // ---------------------------------------------------------------- compaction

  predicate Dots(s: string) {
    s == "." || s == ".."
  }

  /** A name that begins with a dot but is neither "." nor "..". */
  predicate Hidden(s: string) {
    s != "" && s[0] == '.' && !Dots(s)
  }

  /** The stack of a compaction after the `i`-th segment: the segments say what happens, and what is
      kept are their names; `blank` stands for the empty name a path with a slash at its end has. */
  function Next<T>(segs: seq<string>, names: seq<T>, blank: T, i: nat, kept: seq<T>): seq<T>
    requires i < |segs| == |names|
  {
    var last := i + 1 == |segs|;
    if segs[i] == "." then (if last then kept + [blank] else kept)
    else if segs[i] == ".." then
      if i == 1 && segs[0] == "" then [names[0]]
      else if kept == [] then []
      else kept[..|kept| - 1] + (if last then [blank] else [])
    else kept + [names[i]]
  }

  function Keep<T>(segs: seq<string>, names: seq<T>, blank: T, i: nat, kept: seq<T>): seq<T>
    requires i <= |segs| == |names|
    decreases |segs| - i
  {
    if i == |segs| then kept else Keep(segs, names, blank, i + 1, Next(segs, names, blank, i, kept))
  }

  /** What the segments come to when each is called by itself. */
  function Compact(segs: seq<string>): seq<string> {
    Keep(segs, segs, "", 0, [])
  }

  /** Where in the path the segments that are kept stand; -1 for an empty one put at the end. */
  function Survivors(segs: seq<string>): seq<int> {
    Keep(segs, Positions(segs), -1, 0, [])
  }

  function Positions(segs: seq<string>): (ps: seq<int>)
    ensures |ps| == |segs| && forall i :: 0 <= i < |ps| ==> ps[i] == i
  {
    seq(|segs|, i => i)
  }

  // ---------------------------------------------------------------- what the array holds

  /** How many segments are kept in front of the `i`-th. */
  function Depth(segs: seq<string>, i: nat): (j: nat)
    requires i <= |segs|
    ensures j <= i
  {
    if i == 0 then 0
    else
      var j := Depth(segs, i - 1);
      if segs[i - 1] == "." then j
      else if segs[i - 1] == ".." then (if i == 2 && segs[0] == "" then 1 else if j == 0 then 0 else j - 1)
      else j + 1
  }

  /** What stands in the `k`-th place of the array before turn `i`: the last ordinary segment kept at
      that depth, or else the segment that the path has there. */
  function Occupant(segs: seq<string>, i: nat, k: nat): string
    requires i <= |segs| && k < |segs|
  {
    if i == 0 then segs[k]
    else if !Dots(segs[i - 1]) && !Hidden(segs[i - 1]) && Depth(segs, i - 1) == k then segs[i - 1]
    else Occupant(segs, i - 1, k)
  }

  /** The name under which a segment is kept.  A hidden name is counted but not moved down, so that
      it shows whatever stands in its place. */
  function Shown(segs: seq<string>, i: nat): string
    requires i < |segs|
  {
    if Hidden(segs[i]) then Occupant(segs, i, Depth(segs, i)) else segs[i]
  }

  function AllShown(segs: seq<string>): (names: seq<string>)
    ensures |names| == |segs| && forall i :: 0 <= i < |segs| ==> names[i] == Shown(segs, i)
  {
    seq(|segs|, i requires 0 <= i < |segs| => Shown(segs, i))
  }

  /** What the array comes to hold. */
  function Held(segs: seq<string>): seq<string> {
    Keep(segs, AllShown(segs), "", 0, [])
  }

  /** A hidden name that is kept. */
  predicate Stays(segs: seq<string>, i: nat)
    requires i < |segs|
  {
    Hidden(segs[i]) && i in Survivors(segs)
  }

  /** Every hidden name that is kept finds itself in its place. */
  predicate Undisturbed(segs: seq<string>) {
    forall i :: 0 <= i < |segs| && Stays(segs, i) ==> Shown(segs, i) == segs[i]
  }

  /** Some hidden name that is kept finds a "." or ".." in its place. */
  predicate Exposed(segs: seq<string>) {
    exists i :: 0 <= i < |segs| && Stays(segs, i) && Dots(Shown(segs, i))
  }

  /** No hidden name stands behind a "." or "..". */
  predicate HiddenFirst(segs: seq<string>) {
    forall i, k :: 0 <= i < k < |segs| && Dots(segs[i]) ==> !Hidden(segs[k])
  }

  function Accept(q: string): Option<string> {
    if q == "" || q[0] != '/' || '\\' in q then None else Some(q)
  }

  /** What is returned, null being none. */
  function Normalize(p: string): Option<string> {
    if p == "" then Some("") else Accept(Rebuilt(Held(Split(p)), p[0] == '/'))
  }

  /** The text and its terminator fit the block allocated for them: as many characters as there are
      outside of the slashes that part two segments, one for each segment that is kept, and one. */
  predicate Fits(p: string) {
    p == "" || |Rebuilt(Held(Split(p)), p[0] == '/')| + 1 <= Block(p)
  }

  function Block(p: string): int {
    |p| - (|Split(p)| - 1) + |Held(Split(p))| + 1
  }

  // ---------------------------------------------------------------- splitting and joining

  /** Segments as Split gives them: without slashes, and empty only at the ends. */
  predicate Segments(segs: seq<string>) {
    && (forall i :: 0 <= i < |segs| ==> SlashFree(segs[i]))
    && (forall i :: 0 < i < |segs| - 1 ==> segs[i] != "")
  }

  predicate NoDots(segs: seq<string>) {
    forall i :: 0 <= i < |segs| ==> !Dots(segs[i])
  }

  lemma {:induction false} SplitSegments(p: string)
    ensures Segments(Split(p)) && (p != "" && p[0] != '/' ==> Split(p)[0] != "")
    ensures p != "" && p[0] == '/' ==> |Split(p)| > 1 && Split(p)[0] == ""
    decreases |p|
  {
    var k := FirstSlash(p);
    if k < |p| {
      var rest := DropSlashes(p[k + 1..]);
      SplitSegments(rest);
      var segs, more := Split(p), Split(rest);
      assert segs == [p[..k]] + more;
      if rest == "" {
        assert more == [""];
      }
      forall i | 0 < i < |segs| - 1
        ensures segs[i] != ""
      {
        assert segs[i] == more[i - 1];
      }
    } else {
      assert p[..k] == p;
    }
  }

  lemma {:induction false} SplitJoin(segs: seq<string>)
    requires |segs| >= 1 && Segments(segs)
    ensures Split(Join(segs)) == segs
    ensures |segs| > 1 && segs[0] != "" ==> Join(segs) != "" && Join(segs)[0] != '/'
  {
    var p := Join(segs);
    if |segs| == 1 {
      SlashFreeFirst(p, p, "");
    } else {
      var rest, q := segs[1..], Join(segs[1..]);
      SplitJoin(rest);
      NoLeadingSlash(rest);
      SplitOnce(segs[0], q);
      assert p == segs[0] + "/" + q;
      assert [segs[0]] + rest == segs;
    }
  }

  lemma NoLeadingSlash(rest: seq<string>)
    requires |rest| >= 1 && SlashFree(rest[0]) && (|rest| > 1 ==> rest[0] != "")
    ensures DropSlashes(Join(rest)) == Join(rest)
  {
  }

  lemma SplitOnce(s: string, q: string)
    requires SlashFree(s) && DropSlashes(q) == q
    ensures Split(s + "/" + q) == [s] + Split(q)
  {
    var p := s + "/" + q;
    assert p == s + ("/" + q);
    SlashFreeFirst(p, s, "/" + q);
    assert p[|s| + 1..] == q;
  }

  lemma {:induction false} SlashFreeFirst(p: string, s: string, t: string)
    requires p == s + t && SlashFree(s) && (t == "" || t[0] == '/')
    ensures FirstSlash(p) == |s| && p[..|s|] == s
  {
    if s != "" {
      assert p[1..] == s[1..] + t;
      SlashFreeFirst(p[1..], s[1..], t);
    }
  }

  // ---------------------------------------------------------------- what is kept, and its names

  function Pick<T>(names: seq<T>, blank: T, p: int): T
    requires p < |names|
  {
    if p < 0 then blank else names[p]
  }

  /** The stack `kept` holds the names of the positions in `ps`, all of segments that are kept. */
  ghost predicate Named<T>(segs: seq<string>, names: seq<T>, blank: T, ps: seq<int>, kept: seq<T>) {
    && |names| == |segs| && |ps| == |kept|
    && (forall m :: 0 <= m < |ps| ==> ps[m] < |segs| && kept[m] == Pick(names, blank, ps[m]))
    && (forall m :: 0 <= m < |ps| && ps[m] >= 0 ==> !Dots(segs[ps[m]]))
  }

  lemma NextNamed<T>(segs: seq<string>, names: seq<T>, blank: T, i: nat, ps: seq<int>, kept: seq<T>)
    requires i < |segs| && Named(segs, names, blank, ps, kept)
    ensures Named(segs, names, blank, Next(segs, Positions(segs), -1, i, ps), Next(segs, names, blank, i, kept))
  {
  }

  lemma {:induction false} KeepNamed<T>(segs: seq<string>, names: seq<T>, blank: T, i: nat, ps: seq<int>, kept: seq<T>)
    requires i <= |segs| && Named(segs, names, blank, ps, kept)
    ensures Named(segs, names, blank, Keep(segs, Positions(segs), -1, i, ps), Keep(segs, names, blank, i, kept))
    decreases |segs| - i
  {
    if i < |segs| {
      NextNamed(segs, names, blank, i, ps, kept);
      hide Named, Next, Positions;
      KeepNamed(segs, names, blank, i + 1, Next(segs, Positions(segs), -1, i, ps), Next(segs, names, blank, i, kept));
    }
  }

  /** For every path: the array holds what it should exactly if every hidden name that is kept finds
      itself in its place. */
  lemma HeldIsCompact(segs: seq<string>)
    ensures |Held(segs)| == |Compact(segs)|
    ensures Held(segs) == Compact(segs) <==> Undisturbed(segs)
  {
    var ps, names := Survivors(segs), AllShown(segs);
    KeepNamed(segs, names, "", 0, [], []);
    KeepNamed(segs, segs, "", 0, [], []);
    hide Keep, Shown;
    if Undisturbed(segs) {
      forall m | 0 <= m < |ps|
        ensures Held(segs)[m] == Compact(segs)[m]
      {
        if ps[m] >= 0 {
          if Hidden(segs[ps[m]]) {
            assert Stays(segs, ps[m]);
          } else {
            ShownItself(segs, ps[m]);
          }
        }
      }
    } else {
      var i :| 0 <= i < |segs| && Stays(segs, i) && Shown(segs, i) != segs[i];
      var m :| 0 <= m < |ps| && ps[m] == i;
      assert Held(segs)[m] != Compact(segs)[m];
    }
  }

  lemma ShownItself(segs: seq<string>, i: nat)
    requires i < |segs| && !Hidden(segs[i])
    ensures Shown(segs, i) == segs[i]
  {
  }

  /** For every path: a "." or ".." is left exactly if some hidden name that is kept finds one in its
      place. */
  lemma HeldNoDots(segs: seq<string>)
    ensures NoDots(Held(segs)) <==> !Exposed(segs)
  {
    var ps, names, held := Survivors(segs), AllShown(segs), Held(segs);
    KeepNamed(segs, names, "", 0, [], []);
    hide Keep, Shown;
    if Exposed(segs) {
      var i :| 0 <= i < |segs| && Stays(segs, i) && Dots(Shown(segs, i));
      var m :| 0 <= m < |ps| && ps[m] == i;
      assert Dots(held[m]);
    } else {
      forall m | 0 <= m < |held|
        ensures !Dots(held[m])
      {
        if ps[m] >= 0 {
          if Hidden(segs[ps[m]]) {
            assert Stays(segs, ps[m]);
          } else {
            ShownItself(segs, ps[m]);
          }
        }
      }
    }
  }

  lemma {:induction false} DepthNoDots(segs: seq<string>, i: nat, k: nat)
    requires i <= k < |segs| && NoDots(segs[..i])
    ensures Depth(segs, i) == i && Occupant(segs, i, k) == segs[k]
  {
    if i > 0 {
      assert segs[..i - 1] == segs[..i][..i - 1] && segs[i - 1] == segs[..i][i - 1];
      DepthNoDots(segs, i - 1, i);
      DepthNoDots(segs, i - 1, k);
    }
  }

  /** A condition that can be read off the path: hidden names do no harm in front of the first "."
      or "..". */
  lemma HiddenFirstSound(segs: seq<string>)
    requires HiddenFirst(segs)
    ensures Undisturbed(segs) && !Exposed(segs) && Held(segs) == Compact(segs)
  {
    forall i | 0 <= i < |segs| && Stays(segs, i)
      ensures Shown(segs, i) == segs[i]
    {
      DepthNoDots(segs, i, i);
    }
    HeldIsCompact(segs);
  }

  // ---------------------------------------------------------------- the normal form

  /** Nothing empty but perhaps the first. */
  predicate Inner(kept: seq<string>) {
    forall k :: 0 < k < |kept| ==> kept[k] != ""
  }

  /** Names that can be joined and cut again: an empty one only at the bottom or at the end. */
  predicate Joinable(segs: seq<string>, names: seq<string>) {
    && |names| == |segs|
    && (forall i :: 0 <= i < |names| ==> SlashFree(names[i]))
    && (forall i :: 0 <= i < |names| - 1 && Depth(segs, i) > 0 ==> names[i] != "")
  }

  lemma NextSegments(segs: seq<string>, names: seq<string>, i: nat, kept: seq<string>)
    requires i < |segs| && Joinable(segs, names) && |kept| == Depth(segs, i)
    requires Segments(kept) && Inner(kept) && (i == 1 && segs[0] == "" ==> kept == [names[0]])
    ensures var next := Next(segs, names, "", i, kept);
            Segments(next) && (i + 1 < |segs| ==> Inner(next) && |next| == Depth(segs, i + 1))
  {
    assert SlashFree("");
  }

  lemma {:induction false} KeepSegments(segs: seq<string>, names: seq<string>, i: nat, kept: seq<string>)
    requires i <= |segs| && Joinable(segs, names) && Segments(kept)
    requires i < |segs| ==> |kept| == Depth(segs, i) && Inner(kept)
    requires i == 1 && segs[0] == "" ==> kept == [names[0]]
    ensures Segments(Keep(segs, names, "", i, kept))
    decreases |segs| - i
  {
    if i < |segs| {
      NextSegments(segs, names, i, kept);
      assert i == 0 && segs[0] == "" ==> Depth(segs, 0) == 0 && Next(segs, names, "", i, kept) == [names[0]];
      hide Next, Segments, Inner, Joinable, Depth;
      KeepSegments(segs, names, i + 1, Next(segs, names, "", i, kept));
    }
  }

  /** An occupant is one of the segments, and empty only where a slash at the front leaves one. */
  lemma {:induction false} OccupantIs(segs: seq<string>, i: nat, k: nat)
    requires i <= |segs| && k < |segs| && i < |segs|
    ensures exists m :: 0 <= m < |segs| && Occupant(segs, i, k) == segs[m]
    ensures Segments(segs) && k < i && (k > 0 || segs[0] != "") ==> Occupant(segs, i, k) != ""
    decreases i
  {
    if i == 0 {
      assert Occupant(segs, i, k) == segs[k];
    } else if !Dots(segs[i - 1]) && !Hidden(segs[i - 1]) && Depth(segs, i - 1) == k {
      assert Occupant(segs, i, k) == segs[i - 1];
    } else {
      OccupantIs(segs, i - 1, k);
      if k == i - 1 {
        OccupantAhead(segs, i - 1, k);
      }
    }
  }

  /** What the loop has not reached stands where the path has it. */
  lemma {:induction false} OccupantAhead(segs: seq<string>, i: nat, k: nat)
    requires i <= k < |segs|
    ensures Occupant(segs, i, k) == segs[k]
  {
    if i > 0 {
      OccupantAhead(segs, i - 1, k);
    }
  }

  lemma ShownJoinable(segs: seq<string>)
    requires Segments(segs)
    ensures Joinable(segs, AllShown(segs))
  {
    var names := AllShown(segs);
    forall i | 0 <= i < |segs|
      ensures SlashFree(names[i]) && (i + 1 < |segs| && Depth(segs, i) > 0 ==> names[i] != "")
    {
      var j := Depth(segs, i);
      OccupantIs(segs, i, j);
      OccupantAhead(segs, i, i);
      assert j > 0 ==> i > 0;
    }
  }

  lemma HeldSegments(segs: seq<string>)
    requires Segments(segs)
    ensures Segments(Held(segs))
  {
    ShownJoinable(segs);
    KeepSegments(segs, AllShown(segs), 0, []);
  }

  lemma {:induction false} KeepPlain(segs: seq<string>, i: nat)
    requires i <= |segs| && NoDots(segs)
    ensures Keep(segs, segs, "", i, segs[..i]) == segs
    decreases |segs| - i
  {
    if i < |segs| {
      assert segs[..i] + [segs[i]] == segs[..i + 1];
      KeepPlain(segs, i + 1);
    } else {
      assert segs[..i] == segs;
    }
  }

  /** Segments without "." and ".." are all kept, hidden names too. */
  lemma HeldPlain(segs: seq<string>)
    requires NoDots(segs)
    ensures Held(segs) == Compact(segs) == segs
  {
    HiddenFirstSound(segs);
    KeepPlain(segs, 0);
    assert segs[..0] == [];
  }

  /** What the rebuilt path is cut into. */
  lemma SplitRebuilt(segs: seq<string>, rooted: bool, q: string)
    requires Segments(segs) && q == Rebuilt(segs, rooted) && Accept(q).Some?
    ensures Split(q) == (if segs == [""] then ["", ""] else segs) && Join(Split(q)) == q
  {
    if segs == [""] {
      SlashAlone();
      assert Join(["", ""]) == "" + "/" + Join([""]);
    } else {
      SplitJoin(segs);
    }
  }

  lemma SlashAlone()
    ensures Split("/") == ["", ""]
  {
    assert FirstSlash("/") == 0 && "/"[1..] == "" && Split("") == [""];
  }

  /** Keeping segments of which one is "." or ".." changes them. */
  lemma {:induction false} KeepChanges(segs: seq<string>, names: seq<string>, i: nat, kept: seq<string>)
    requires i <= |segs| == |names| && |kept| <= i
    requires i == 1 && segs[0] == "" ==> |kept| == 1
    ensures |Keep(segs, names, "", i, kept)| <= |segs|
    ensures |kept| < i ==> |Keep(segs, names, "", i, kept)| < |segs|
    ensures !NoDots(segs[i..]) ==>
              var r := Keep(segs, names, "", i, kept);
              |r| < |segs| || r[|r| - 1] == "" != segs[|segs| - 1]
    decreases |segs| - i
  {
    if i < |segs| {
      var next := Next(segs, names, "", i, kept);
      NextLength(segs, names, i, kept);
      hide Next;
      KeepChanges(segs, names, i + 1, next);
      assert NoDots(segs[i..]) <==> !Dots(segs[i]) && NoDots(segs[i + 1..]) by {
        assert segs[i..] == [segs[i]] + segs[i + 1..];
      }
    }
  }

  lemma NextLength(segs: seq<string>, names: seq<string>, i: nat, kept: seq<string>)
    requires i < |segs| == |names| && |kept| <= i && (i == 1 && segs[0] == "" ==> |kept| == 1)
    ensures var next := Next(segs, names, "", i, kept);
            && |next| <= i + 1 && (|kept| < i ==> |next| < i + 1)
            && (i == 0 && segs[0] == "" ==> |next| == 1)
            && (Dots(segs[i]) ==> |next| < i + 1 || (i + 1 == |segs| && next[i] == ""))
  {
  }

  /** A joined path is its own normal form exactly if it has no "." and ".." segment. */
  lemma OwnNormalForm(q: string)
    requires q != "" && Join(Split(q)) == q && Accept(q).Some?
    ensures Normalize(q) == Some(q) <==> NoDots(Split(q))
  {
    var segs := Split(q);
    var held := Held(segs);
    SplitSegments(q);
    HeldSegments(segs);
    if NoDots(segs) {
      HeldPlain(segs);
    } else {
      assert segs[0..] == segs;
      KeepChanges(segs, AllShown(segs), 0, []);
      if Normalize(q) == Some(q) {
        SplitRebuilt(held, true, q);
        assert false;
      }
    }
  }

  /** For every path whose normal form is not null: it starts with a slash and has no backslash; and
      it is without "." and ".." segments, and its own normal form, exactly if no hidden name that is
      kept finds a "." or ".." in its place. */
  lemma NormalForm(p: string)
    requires p != "" && Normalize(p).Some?
    ensures var q := Normalize(p).value;
            && q != "" && q[0] == '/' && '\\' !in q
            && (NoDots(Split(q)) <==> !Exposed(Split(p)))
            && (Normalize(q) == Some(q) <==> !Exposed(Split(p)))
  {
    var segs := Split(p);
    var q, held := Normalize(p).value, Held(segs);
    SplitSegments(p);
    HeldSegments(segs);
    HeldNoDots(segs);
    SplitRebuilt(held, p[0] == '/', q);
    OwnNormalForm(q);
    assert NoDots(["", ""]);
    assert held == [""] ==> NoDots(held);
  }

  /** A path that does not begin with a slash is refused, whatever its segments. */
  lemma RelativeRefused(p: string)
    requires p != "" && p[0] != '/'
    ensures Normalize(p) == None
  {
    var segs := Split(p);
    var held := Held(segs);
    SplitSegments(p);
    HeldSegments(segs);
    forall i | 0 <= i < |segs| - 1
      ensures AllShown(segs)[i] != ""
    {
      OccupantIs(segs, i, Depth(segs, i));
      OccupantAhead(segs, i, i);
    }
    KeepNonempty(segs, AllShown(segs), 0, []);
    if |held| > 1 {
      assert Join(held)[0] == held[0][0];
    } else if held == [] {
      assert Rebuilt(held, false) == "";
    } else {
      assert Rebuilt(held, false) == held[0];
    }
  }

  /** Nothing empty but perhaps the last, and not that if more will follow. */
  predicate Nonempty(kept: seq<string>, more: bool) {
    forall k :: 0 <= k < |kept| && (more || k < |kept| - 1) ==> kept[k] != ""
  }

  lemma {:induction false} KeepNonempty(segs: seq<string>, names: seq<string>, i: nat, kept: seq<string>)
    requires i <= |segs| == |names| && segs != [] && segs[0] != ""
    requires Nonempty(names, false) && Nonempty(kept, i < |segs|)
    ensures Nonempty(Keep(segs, names, "", i, kept), false)
    decreases |segs| - i
  {
    if i < |segs| {
      var next := Next(segs, names, "", i, kept);
      assert Nonempty(next, i + 1 < |segs|);
      KeepNonempty(segs, names, i + 1, next);
    }
  }

  // ---------------------------------------------------------------- what "." and ".." mean

  /** Some ".." before the last segment finds none of the names before it left to take away. */
  predicate Climbs(b: seq<string>, level: nat) {
    if |b| <= 1 then false
    else if b[0] == "." then Climbs(b[1..], level)
    else if b[0] == ".." then level == 0 || Climbs(b[1..], level - 1)
    else Climbs(b[1..], level + 1)
  }

  /** What stands between `a` and `b` does not part the root from a ".." behind it, or it does not
      matter that it does: nothing follows, or the root is climbed over later. */
  predicate RootSafe(a: seq<string>, b: seq<string>) {
    a == [""] && |b| > 1 && b[0] == ".." ==> Climbs(b[1..], 0)
  }

  /** A "." in the middle counts for nothing, exactly unless it lets a ".." take the root away. */
  lemma DotVanishes(a: seq<string>, b: seq<string>)
    requires a != [] && b != []
    ensures Compact(a + ["."] + b) == Compact(a + b) <==> RootSafe(a, b)
  {
    hide Keep, Kept, RootSafe;
    var s, t := a + ["."] + b, a + b;
    var kept := Kept(a, 0, []);
    assert s[..|a|] == a == t[..|a|];
    KeepFront(s, a, 0, []);
    KeepFront(t, a, 0, []);
    assert s[|a|] == "." && |a| + 1 < |s|;
    KeepStep(s, |a|, kept, kept);
    assert s[|a| + 1..] == b == t[|a|..];
    SameKept(a, b, s, |a| + 1, t, kept);
  }

  /** A ".." in the middle takes the name before it away, with the same exception. */
  lemma UpUndoes(a: seq<string>, x: string, b: seq<string>)
    requires a != [] && b != [] && !Dots(x)
    ensures Compact(a + [x, ".."] + b) == Compact(a + b) <==> RootSafe(a, b)
  {
    hide Keep, Kept, RootSafe;
    var s, t := a + [x, ".."] + b, a + b;
    var kept := Kept(a, 0, []);
    assert s[..|a|] == a == t[..|a|];
    KeepFront(s, a, 0, []);
    KeepFront(t, a, 0, []);
    assert s[|a|] == x && s[|a| + 1] == "..";
    var more := kept + [x];
    assert more[..|more| - 1] == kept && kept + [] == kept;
    KeepStep(s, |a|, kept, more);
    KeepStep(s, |a| + 1, more, kept);
    assert s[|a| + 2..] == b == t[|a|..];
    SameKept(a, b, s, |a| + 2, t, kept);
  }

  /** A ".." behind the root goes nowhere, with the same exception, and alone it leaves the root. */
  lemma UpFromRoot(b: seq<string>)
    requires b != []
    ensures Compact(["", ".."] + b) == Compact([""] + b) <==> RootSafe([""], b)
    ensures Compact(["", ".."]) == [""]
  {
    hide Keep, RootSafe;
    var s, t := ["", ".."] + b, [""] + b;
    KeepStep(s, 0, [], [""]);
    KeepStep(s, 1, [""], [""]);
    KeepStep(t, 0, [], [""]);
    KeptRoot();
    hide Next, Kept;
    assert s[2..] == b;
    SameKept([""], b, s, 2, t, [""]);
    RootOnly();
  }

  lemma KeptRoot()
    ensures Kept([""], 0, []) == [""]
  {
    assert Kept([""], 1, [] + [""]) == [""];
  }

  lemma RootOnly()
    ensures Compact(["", ".."]) == [""]
  {
    hide Keep;
    var s := ["", ".."];
    KeepStep(s, 0, [], [""]);
    KeepStep(s, 1, [""], [""]);
    KeepEnd(s, [""]);
  }

  /** A "." at the end stands for the directory, as a slash there does. */
  lemma LastDot(a: seq<string>)
    requires a != []
    ensures Compact(a + ["."]) == Compact(a + [""])
  {
    hide Keep, Kept;
    LastKept(a, ".");
    LastKept(a, "");
  }

  /** And so does a ".." there, for the directory above. */
  lemma LastUp(a: seq<string>, x: string)
    requires a != [] && !Dots(x)
    ensures Compact(a + [x, ".."]) == Compact(a + [""])
  {
    hide Keep, Kept;
    var s, kept := a + [x, ".."], Kept(a, 0, []);
    assert s[..|a|] == a;
    KeepFront(s, a, 0, []);
    var more := kept + [x];
    assert more[..|more| - 1] == kept;
    KeepStep(s, |a|, kept, more);
    KeepStep(s, |a| + 1, more, kept + [""]);
    KeepEnd(s, kept + [""]);
    LastKept(a, "");
  }

  lemma LastKept(a: seq<string>, x: string)
    requires a != [] && x in {"", "."}
    ensures Compact(a + [x]) == Kept(a, 0, []) + [""]
  {
    hide Keep, Kept;
    var s, kept := a + [x], Kept(a, 0, []);
    assert s[..|a|] == a;
    KeepFront(s, a, 0, []);
    KeepStep(s, |a|, kept, kept + [""]);
    KeepEnd(s, kept + [""]);
  }

  /** A path from the root without a dot segment, an empty segment in the middle and a backslash is its own
      normal form. */
  lemma PlainPath(segs: seq<string>)
    requires |segs| > 1 && segs[0] == "" && Segments(segs) && NoDots(segs)
    requires forall i :: 0 <= i < |segs| ==> '\\' !in segs[i]
    ensures Normalize(Join(segs)) == Some(Join(segs))
  {
    var q := Join(segs);
    SplitJoin(segs);
    NoBackslash(segs);
    assert q[0] == '/';
    OwnNormalForm(q);
  }

  lemma {:induction false} NoBackslash(segs: seq<string>)
    requires forall i :: 0 <= i < |segs| ==> '\\' !in segs[i]
    ensures '\\' !in Join(segs)
  {
    if |segs| > 1 {
      NoBackslash(segs[1..]);
    }
  }

  /** Up to the first slash is a segment, and the others are cut from what stands behind the run of
      slashes. */
  lemma SplitAt(s: string, t: string)
    requires SlashFree(s)
    ensures Split(s + ("/" + t)) == [s] + Split(DropSlashes(t))
  {
    var p := s + ("/" + t);
    SlashFreeFirst(p, s, "/" + t);
    hide FirstSlash, DropSlashes;
    assert p[|s| + 1..] == t;
  }

  /** A run of slashes cuts as one slash does. */
  lemma {:induction false} SlashRun(a: string, b: string)
    ensures Split(a + "//" + b) == Split(a + "/" + b)
    decreases |a|
  {
    hide Split, FirstSlash;
    var k := FirstSlash(a);
    if k == |a| {
      assert a[..k] == a;
      assert a + "//" + b == a + ("/" + ("/" + b)) && a + "/" + b == a + ("/" + b);
      SplitAt(a, "/" + b);
      SplitAt(a, b);
      assert ("/" + b)[1..] == b;
    } else {
      var s, rest := a[..k], a[k + 1..];
      assert a == s + ("/" + rest);
      var p, q := rest + "//" + b, rest + "/" + b;
      Nested(s, rest, "//", b);
      Nested(s, rest, "/", b);
      SplitAt(s, p);
      SplitAt(s, q);
      DropBefore(rest, b);
      hide DropSlashes;
      if DropSlashes(rest) != "" {
        SlashRun(DropSlashes(rest), b);
      }
    }
  }

  lemma Nested(s: string, rest: string, run: string, b: string)
    ensures s + ("/" + rest) + run + b == s + ("/" + (rest + run + b))
  {
  }

  lemma {:induction false} DropBefore(a: string, b: string)
    ensures var d := DropSlashes(a);
            && DropSlashes(a + "//" + b) == (if d == "" then DropSlashes(b) else d + "//" + b)
            && DropSlashes(a + "/" + b) == (if d == "" then DropSlashes(b) else d + "/" + b)
  {
    if a == "" {
      assert "" + "//" + b == "/" + ("/" + b) && "" + "/" + b == "/" + b;
      assert DropSlashes("/" + ("/" + b)) == DropSlashes("/" + b) == DropSlashes(b);
    } else if a[0] == '/' {
      assert (a + "//" + b)[1..] == a[1..] + "//" + b && (a + "/" + b)[1..] == a[1..] + "/" + b;
      DropBefore(a[1..], b);
    }
  }

  /** What is kept of segments that more will follow. */
  function Kept(a: seq<string>, i: nat, kept: seq<string>): seq<string>
    requires i <= |a|
    decreases |a| - i
  {
    if i == |a| then kept else Kept(a, i + 1, Next(a + [""], a + [""], "", i, kept))
  }

  lemma {:induction false} KeepFront(s: seq<string>, a: seq<string>, i: nat, kept: seq<string>)
    requires i <= |a| < |s| && s[..|a|] == a
    ensures Keep(s, s, "", i, kept) == Keep(s, s, "", |a|, Kept(a, i, kept))
    decreases |a| - i
  {
    if i < |a| {
      assert s[i] == s[..|a|][i] && s[0] == s[..|a|][0];
      assert Next(s, s, "", i, kept) == Next(a + [""], a + [""], "", i, kept);
      KeepFront(s, a, i + 1, Next(s, s, "", i, kept));
    }
  }

  lemma KeepStep(segs: seq<string>, i: nat, kept: seq<string>, next: seq<string>)
    requires i < |segs| && Next(segs, segs, "", i, kept) == next
    ensures Keep(segs, segs, "", i, kept) == Keep(segs, segs, "", i + 1, next)
  {
  }

  lemma SameKept(a: seq<string>, b: seq<string>, s: seq<string>, i: nat, t: seq<string>, kept: seq<string>)
    requires a != [] && b != [] && t == a + b && |a| < i <= |s| && s[i..] == b && kept == Kept(a, 0, [])
    ensures Keep(s, s, "", i, kept) == Keep(t, t, "", |a|, kept)
        <==> RootSafe(a, b)
  {
    assert t[|a|..] == b && t[0] == a[0] && t[|a|] == b[0] == s[i];
    if a == [""] && b[0] == ".." {
      assert kept == [""] by {
        assert Kept(a, 1, [] + [""]) == [""];
      }
      SameKeptUp(b, s, i, t);
    } else {
      hide Keep, Kept;
      SameTail(s, i, t, |a|, kept);
    }
  }

  lemma SameKeptUp(b: seq<string>, s: seq<string>, i: nat, t: seq<string>)
    requires b != [] && b[0] == ".." && t == [""] + b && 1 < i <= |s| && s[i..] == b
    ensures Keep(s, s, "", i, [""]) == Keep(t, t, "", 1, [""]) <==> (|b| > 1 ==> Climbs(b[1..], 0))
  {
    var next := if |b| > 1 then [] else [""];
    assert s[i] == b[0] == t[1] && |t| == |b| + 1 && |s| == i + |b|;
    assert [""][..0] == [] && [] + [""] == [""] && [""] + [] == [""] && [] + [] == next[..0];
    hide Keep, Climbs;
    KeepStep(s, i, [""], next);
    KeepStep(t, 1, [""], [""]);
    hide Next;
    assert s[i + 1..] == s[i..][1..] && t[2..] == b[1..];
    if |b| > 1 {
      RootLost(s, i + 1, t, 2, []);
    } else {
      SameTail(s, i + 1, t, 2, [""]);
    }
  }

  lemma {:induction false} SameTail(s: seq<string>, i: nat, t: seq<string>, j: nat, kept: seq<string>)
    requires 1 < i <= |s| && 0 < j <= |t| && s[i..] == t[j..]
    requires j == 1 && j < |t| ==> t[0] != "" || t[1] != ".."
    ensures Keep(s, s, "", i, kept) == Keep(t, t, "", j, kept)
    decreases |s| - i
  {
    if i < |s| {
      assert s[i] == s[i..][0] == t[j..][0] == t[j];
      assert s[i + 1..] == s[i..][1..] == t[j + 1..];
      SameTail(s, i + 1, t, j + 1, Next(s, s, "", i, kept));
    }
  }

  /** With and without the root below them, the same segments come to the same only by climbing over
      the root. */
  lemma {:induction false} RootLost(s: seq<string>, i: nat, t: seq<string>, j: nat, kept: seq<string>)
    requires 1 < i <= |s| && 1 < j <= |t| && s[i..] == t[j..]
    ensures Keep(s, s, "", i, kept) == Keep(t, t, "", j, [""] + kept) <==> Climbs(s[i..], |kept|)
    decreases |s| - i
  {
    if i < |s| {
      var rest := s[i..];
      assert s[i] == rest[0] == t[j..][0] == t[j];
      assert s[i + 1..] == rest[1..] == t[j + 1..];
      var next := Next(s, s, "", i, kept);
      NextRooted(s, i, t, j, kept);
      if s[i] == ".." && kept == [] && |rest| > 1 {
        SameTail(s, i + 1, t, j + 1, []);
      } else if s[i] == ".." && kept == [] {
      } else {
        RootLost(s, i + 1, t, j + 1, next);
      }
    }
  }

  lemma NextRooted(s: seq<string>, i: nat, t: seq<string>, j: nat, kept: seq<string>)
    requires 1 < i < |s| && 1 < j < |t| && s[i] == t[j] && (i + 1 == |s| <==> j + 1 == |t|)
    ensures s[i] == ".." && kept == [] ==> Next(t, t, "", j, [""] + kept) == if i + 1 < |s| then [] else [""]
    ensures s[i] != ".." || kept != [] ==> Next(t, t, "", j, [""] + kept) == [""] + Next(s, s, "", i, kept)
  {
    var rooted := [""] + kept;
    assert rooted[..|rooted| - 1] == if kept == [] then [] else [""] + kept[..|kept| - 1];
  }

  /** The exception is real: "/../b" becomes "/b", but "/./../b" loses its root. */
  lemma DotBeforeUp()
    ensures Compact(["", "..", "b"]) == ["", "b"] && Compact(["", ".", "..", "b"]) == ["b"]
    ensures Accept(Rebuilt(["", "b"], true)) == Some("/b") && Accept(Rebuilt(["b"], true)) == None
  {
    UpAtRoot();
    UpAfterDot();
    assert ["", "b"][1..] == ["b"] && Join(["", "b"]) == "" + "/" + Join(["b"]) && Join(["b"]) == "b";
    assert Rebuilt(["", "b"], true) == "/b" && Rebuilt(["b"], true) == "b";
  }

  lemma UpAtRoot()
    ensures Compact(["", "..", "b"]) == ["", "b"]
  {
    var s := ["", "..", "b"];
    hide Keep;
    KeepStep(s, 0, [], [""]);
    KeepStep(s, 1, [""], [""]);
    KeepStep(s, 2, [""], ["", "b"]);
    KeepEnd(s, ["", "b"]);
  }

  lemma UpAfterDot()
    ensures Compact(["", ".", "..", "b"]) == ["b"]
  {
    var t := ["", ".", "..", "b"];
    hide Keep;
    assert [""][..0] + [] == [];
    KeepStep(t, 0, [], [""]);
    KeepStep(t, 1, [""], [""]);
    KeepStep(t, 2, [""], []);
    KeepStep(t, 3, [], ["b"]);
    KeepEnd(t, ["b"]);
  }

  lemma KeepEnd(segs: seq<string>, kept: seq<string>)
    ensures Keep(segs, segs, "", |segs|, kept) == kept
  {
  }

  // ---------------------------------------------------------------- in place

  /** One turn of the compaction loop, on the array and its two indices.  A name with a leading dot
      that is neither "." nor ".." is counted but not moved down. */
  function Turn(a: seq<string>, i: nat, j: nat): (r: (seq<string>, nat))
    requires j <= i < |a|
    ensures |r.0| == |a| && r.1 <= i + 1
    ensures forall k :: i < k < |a| ==> r.0[k] == a[k]
  {
    var last := i + 1 == |a|;
    if a[i] == "" || a[i][0] != '.' then (a[j := a[i]], j + 1)
    else if a[i] == "." then (if last then (a[j := ""], j + 1) else (a, j))
    else if a[i] == ".." then
      if i == 1 && a[0] == "" then (a, 1)
      else if j == 0 then (a, 0)
      else if last then (a[j - 1 := ""], j)
      else (a, j - 1)
    else (a, j + 1)
  }

  function Squeeze(a: seq<string>, i: nat, j: nat): (r: (seq<string>, nat))
    requires j <= i <= |a|
    ensures |r.0| == |a| && r.1 <= |a|
    decreases |a| - i
  {
    if i == |a| then (a, j)
    else
      var (b, k) := Turn(a, i, j);
      Squeeze(b, i + 1, k)
  }

  /** The compaction loop; the index it writes at never passes the one it reads at. */
  method CompactSegments(segments: array<string>) returns (nseg: nat)
    modifies segments
    ensures nseg <= segments.Length && segments[..nseg] == Held(old(segments[..]))
  {
    hide Squeeze;
    var j, i := 0, 0;
    while i < segments.Length
      invariant 0 <= j <= i <= segments.Length
      invariant Squeeze(segments[..], i, j) == Squeeze(old(segments[..]), 0, 0)
    {
      SqueezeTurn(segments[..], i, j);
      ghost var before, turn := segments[..], Turn(segments[..], i, j);
      var sp := segments[i];
      if sp != "" && sp[0] == '.' {
        if sp == "." {
          if i + 1 == segments.Length {
            segments[j] := "";
          } else {
            j := j - 1;
          }
        } else if sp == ".." {
          if i == 1 && segments[0] == "" {
            j := 0;
          } else if i + 1 == segments.Length {
            j := j - 1;
            if j >= 0 {
              segments[j] := "";
            }
          } else {
            j := if j - 2 > -1 then j - 2 else -1;
          }
        }
      } else {
        segments[j] := segments[i];
      }
      i := i + 1;
      j := j + 1;
      assert (segments[..], j) == turn;
    }
    SqueezeEnd(segments[..], j);
    SqueezeHolds(old(segments[..]));
    nseg := j;
  }

  lemma SqueezeTurn(a: seq<string>, i: nat, j: nat)
    requires j <= i < |a|
    ensures Squeeze(a, i, j) == Squeeze(Turn(a, i, j).0, i + 1, Turn(a, i, j).1)
  {
  }

  lemma SqueezeEnd(a: seq<string>, j: nat)
    requires j <= |a|
    ensures Squeeze(a, |a|, j) == (a, j)
  {
  }

  /** The array before turn `i`: every place has its occupant. */
  ghost predicate Occupied(segs: seq<string>, a: seq<string>, i: nat, j: nat) {
    && i < |segs| == |a| && j == Depth(segs, i)
    && (forall k :: 0 <= k < |a| ==> a[k] == Occupant(segs, i, k))
  }

  lemma TurnOccupied(segs: seq<string>, a: seq<string>, i: nat, j: nat)
    requires Occupied(segs, a, i, j) && i + 1 < |segs|
    ensures Occupied(segs, Turn(a, i, j).0, i + 1, Turn(a, i, j).1)
    ensures i == 0 && segs[0] == "" ==> Turn(a, i, j).1 == 1
  {
    OccupantAhead(segs, i, i);
    if i == 1 {
      assert Occupant(segs, 1, 0) == segs[0] by {
        assert Occupant(segs, 0, 0) == segs[0];
      }
      assert a[0] == segs[0];
    }
  }

  /** A turn in place is a turn of the stack, of names that show what the array has for hidden ones. */
  lemma TurnByNames(segs: seq<string>, names: seq<string>, a: seq<string>, i: nat, j: nat)
    requires j <= i < |a| == |segs| == |names| && a[i] == segs[i]
    requires names[i] == if Hidden(segs[i]) then a[j] else segs[i]
    requires i == 1 ==> (a[0] == "" <==> segs[0] == "") && (segs[0] == "" ==> names[0] == "" && j == 1)
    ensures Turn(a, i, j).0[..Turn(a, i, j).1] == Next(segs, names, "", i, a[..j])
  {
    var s, b, k := a[i], Turn(a, i, j).0, Turn(a, i, j).1;
    if !Dots(s) {
      assert b[..k] == a[..j] + [names[i]];
    } else if j > 0 {
      assert a[..j][..j - 1] == a[..j - 1];
      assert i + 1 == |a| && s == ".." && !(i == 1 && a[0] == "") ==> b[..k] == a[..j - 1] + [""];
    }
  }

  lemma TurnIsNext(segs: seq<string>, a: seq<string>, i: nat, j: nat)
    requires Occupied(segs, a, i, j) && (i == 1 && segs[0] == "" ==> j == 1)
    ensures Turn(a, i, j).0[..Turn(a, i, j).1] == Next(segs, AllShown(segs), "", i, a[..j])
  {
    OccupantAhead(segs, i, i);
    if i == 1 {
      assert Occupant(segs, 1, 0) == segs[0] by {
        assert Occupant(segs, 0, 0) == segs[0];
      }
      assert a[0] == segs[0] == AllShown(segs)[0];
    }
    hide Turn, Next;
    TurnByNames(segs, AllShown(segs), a, i, j);
  }

  lemma {:induction false} SqueezeFrom(segs: seq<string>, a: seq<string>, i: nat, j: nat)
    requires Occupied(segs, a, i, j) && (i == 1 && segs[0] == "" ==> j == 1)
    ensures var (b, n) := Squeeze(a, i, j);
            b[..n] == Keep(segs, AllShown(segs), "", i, a[..j])
    decreases |segs| - i
  {
    hide Turn, Next, Keep, Squeeze, Occupied, AllShown, Occupant, Depth;
    OccupiedShape(segs, a, i, j);
    var (b, k) := Turn(a, i, j);
    TurnIsNext(segs, a, i, j);
    SqueezeTurn(a, i, j);
    KeepOn(segs, AllShown(segs), "", i, a[..j]);
    if i + 1 < |segs| {
      TurnOccupied(segs, a, i, j);
      SqueezeFrom(segs, b, i + 1, k);
    } else {
      SqueezeEnd(b, k);
      KeepAll(segs, AllShown(segs), "", b[..k]);
    }
  }

  lemma OccupiedShape(segs: seq<string>, a: seq<string>, i: nat, j: nat)
    requires Occupied(segs, a, i, j)
    ensures j <= i < |segs| == |a|
  {
  }

  lemma KeepOn<T>(segs: seq<string>, names: seq<T>, blank: T, i: nat, kept: seq<T>)
    requires i < |segs| == |names|
    ensures Keep(segs, names, blank, i, kept)
         == Keep(segs, names, blank, i + 1, Next(segs, names, blank, i, kept))
  {
  }

  lemma KeepAll<T>(segs: seq<string>, names: seq<T>, blank: T, kept: seq<T>)
    requires |segs| == |names|
    ensures Keep(segs, names, blank, |segs|, kept) == kept
  {
  }

  /** The loop leaves in the array what the description says it holds. */
  lemma SqueezeHolds(segs: seq<string>)
    ensures var (b, n) := Squeeze(segs, 0, 0); b[..n] == Held(segs)
  {
    assert segs[..0] == [];
    if segs != [] {
      assert forall k :: 0 <= k < |segs| ==> segs[k] == Occupant(segs, 0, k);
      SqueezeFrom(segs, segs, 0, 0);
    }
  }

  // ---------------------------------------------------------------- the block for the result

  function Total(segs: seq<string>): nat {
    if segs == [] then 0 else Total(segs[..|segs| - 1]) + |segs[|segs| - 1]|
  }

  lemma {:induction false} TotalAppend(segs: seq<string>, s: string)
    ensures Total(segs + [s]) == Total(segs) + |s|
  {
    assert (segs + [s])[..|segs|] == segs;
  }

  /** Compaction keeps no more characters than there are. */
  lemma {:induction false} KeepFits(segs: seq<string>, i: nat, kept: seq<string>)
    requires i <= |segs| && Total(kept) <= Total(segs[..i])
    ensures Total(Keep(segs, segs, "", i, kept)) <= Total(segs)
    decreases |segs| - i
  {
    if i < |segs| {
      assert segs[..i + 1] == segs[..i] + [segs[i]];
      TotalAppend(segs[..i], segs[i]);
      NextFits(segs, i, kept);
      hide Next, Total;
      KeepFits(segs, i + 1, Next(segs, segs, "", i, kept));
    } else {
      assert segs[..i] == segs;
    }
  }

  lemma NextFits(segs: seq<string>, i: nat, kept: seq<string>)
    requires i < |segs|
    ensures Total(Next(segs, segs, "", i, kept)) <= Total(kept) + |segs[i]|
  {
    TotalAppend(kept, segs[i]);
    TotalAppend(kept, "");
    TotalAppend([], segs[0]);
    assert [] + [segs[0]] == [segs[0]];
    if kept != [] {
      var front := kept[..|kept| - 1];
      TotalAppend(front, "");
      assert front + [] == front && Total(front) <= Total(kept);
    }
  }

  lemma {:induction false} SplitTotal(p: string)
    ensures Total(Split(p)) + |Split(p)| - 1 <= |p|
    decreases |p|
  {
    var k := FirstSlash(p);
    if k < |p| {
      var rest := DropSlashes(p[k + 1..]);
      SplitTotal(rest);
      TotalFront(Split(p));
      assert Split(p)[1..] == Split(rest);
    } else {
      TotalFront(Split(p));
      assert Split(p)[1..] == [];
    }
  }

  lemma {:induction false} JoinLength(segs: seq<string>)
    ensures segs != [] ==> |Join(segs)| == Total(segs) + |segs| - 1
  {
    if |segs| > 1 {
      JoinLength(segs[1..]);
      TotalFront(segs);
    } else if |segs| == 1 {
      assert segs == [] + [segs[0]];
      TotalAppend([], segs[0]);
    }
  }

  lemma {:induction false} TotalFront(segs: seq<string>)
    requires segs != []
    ensures Total(segs) == |segs[0]| + Total(segs[1..])
  {
    var front := segs[..|segs| - 1];
    assert segs == front + [segs[|segs| - 1]];
    TotalAppend(front, segs[|segs| - 1]);
    if |segs| > 1 {
      TotalFront(front);
      assert segs[1..] == front[1..] + [segs[|segs| - 1]];
      TotalAppend(front[1..], segs[|segs| - 1]);
    }
  }

  /** For every path: the result fits its block exactly if the segments kept hold at most one
      character more than there are outside of the slashes that part two segments. */
  lemma FitsByTotals(p: string)
    requires p != ""
    ensures Fits(p) <==> Total(Held(Split(p))) <= |p| - (|Split(p)| - 1) + 1
  {
    var segs := Split(p);
    var held := Held(segs);
    JoinLength(held);
    SplitTotal(p);
    assert held == [""] ==> held == [] + [""];
    TotalAppend([], "");
    TotalNone();
  }

  lemma TotalNone()
    ensures Total([]) == 0
  {
  }

  /** By how much the name shown is longer than the one that should be. */
  function Over(segs: seq<string>, i: int): int {
    if 0 <= i < |segs| then |Shown(segs, i)| - |segs[i]| else 0
  }

  function Excess(segs: seq<string>, ps: seq<int>): int {
    if ps == [] then 0 else Excess(segs, ps[..|ps| - 1]) + Over(segs, ps[|ps| - 1])
  }

  lemma {:induction false} TotalsDiffer(segs: seq<string>, ps: seq<int>, held: seq<string>, kept: seq<string>)
    requires Named(segs, AllShown(segs), "", ps, held) && Named(segs, segs, "", ps, kept)
    ensures Total(held) == Total(kept) + Excess(segs, ps)
  {
    hide Shown;
    if ps != [] {
      var n := |ps| - 1;
      TotalsDiffer(segs, ps[..n], held[..n], kept[..n]);
    }
  }

  /** For every path: the result fits exactly if what the shown names are longer than their own is within
      what compaction leaves free. */
  lemma FitsByExcess(p: string)
    requires p != ""
    ensures var segs := Split(p);
            Fits(p) <==> Total(Compact(segs)) + Excess(segs, Survivors(segs)) <= |p| - (|segs| - 1) + 1
  {
    hide Fits, Split, Total, Keep, Shown, Named, AllShown;
    var segs := Split(p);
    FitsByTotals(p);
    NoNames(segs, AllShown(segs));
    NoNames(segs, segs);
    KeepNamed(segs, AllShown(segs), "", 0, [], []);
    KeepNamed(segs, segs, "", 0, [], []);
    TotalsDiffer(segs, Survivors(segs), Held(segs), Compact(segs));
  }

  lemma NoNames(segs: seq<string>, names: seq<string>)
    requires |names| == |segs|
    ensures Named(segs, names, "", [], [])
  {
  }

  /** No hidden name that is kept shows a longer one. */
  predicate NoneLonger(segs: seq<string>) {
    forall i :: 0 <= i < |segs| && Stays(segs, i) ==> |Shown(segs, i)| <= |segs[i]|
  }

  lemma {:induction false} NoExcess(segs: seq<string>, ps: seq<int>)
    requires NoneLonger(segs) && forall m :: 0 <= m < |ps| ==> ps[m] in Survivors(segs)
    ensures Excess(segs, ps) <= 0
  {
    if ps != [] {
      var i := ps[|ps| - 1];
      NoExcess(segs, ps[..|ps| - 1]);
      if 0 <= i < |segs| && !Hidden(segs[i]) {
        ShownItself(segs, i);
      } else if 0 <= i < |segs| {
        assert Stays(segs, i);
      }
    }
  }

  /** It fits if no hidden name that is kept shows a longer one. */
  lemma NoneLongerFits(p: string)
    requires NoneLonger(Split(p))
    ensures Fits(p)
  {
    if p != "" {
      hide Keep, Shown, NoneLonger;
      var segs := Split(p);
      FitsByExcess(p);
      NoExcess(segs, Survivors(segs));
      CompactTotal(segs);
      SplitTotal(p);
    }
  }

  lemma CompactTotal(segs: seq<string>)
    ensures Total(Compact(segs)) <= Total(segs)
  {
    assert segs[..0] == [];
    KeepFits(segs, 0, []);
  }

  /** And so wherever the array holds what it should. */
  lemma UndisturbedFits(p: string)
    requires Undisturbed(Split(p))
    ensures Fits(p)
  {
    NoneLongerFits(p);
  }

  /** In a path where no hidden name stands behind a "." or "..", hidden names do no harm: the result
      fits its block, and it is null or without "." and ".." segments and its own normal form. */
  lemma HiddenFirstNormal(p: string)
    requires HiddenFirst(Split(p))
    ensures Fits(p)
    ensures p != "" && Normalize(p).Some? ==>
              var q := Normalize(p).value; NoDots(Split(q)) && Normalize(q) == Some(q) && Fits(q)
  {
    HiddenFirstSound(Split(p));
    UndisturbedFits(p);
    if p != "" && Normalize(p).Some? {
      var q := Normalize(p).value;
      NormalForm(p);
      HiddenFirstSound(Split(q));
      UndisturbedFits(q);
    }
  }

  // ---------------------------------------------------------------- what hidden names do

  /** What is held, read off a run. */
  lemma HeldBy(segs: seq<string>, b: seq<string>, n: nat)
    requires Squeeze(segs, 0, 0) == (b, n) && n <= |b|
    ensures Held(segs) == b[..n]
  {
    SqueezeHolds(segs);
  }

  /** Behind a "." and a longer name a hidden name shows that longer name again, and the block is too
      small as soon as it is longer by three: "/./" s "/" h becomes "/" s "/" s. */
  lemma Overrun(s: string, h: string)
    requires SlashFree(s) && s != "" && s[0] != '.' && SlashFree(h) && Hidden(h)
    ensures var p := "/./" + s + "/" + h;
            Held(Split(p)) == ["", s, s] && (Fits(p) <==> |s| <= |h| + 2)
  {
    var segs, p := ["", ".", s, h], "/./" + s + "/" + h;
    assert p == "" + "/" + ("." + "/" + (s + "/" + h)) by {
      assert "/./" + (s + "/" + h) == p;
    }
    CutFour("", ".", s, h);
    HeldFour(".", s, h);
    FitsByTotals(p);
    TotalThree("", s, s);
    hide Split, Held, Fits, Total;
    assert |p| == 4 + |s| + |h|;
  }

  lemma TotalThree(a: string, b: string, c: string)
    ensures Total([a, b, c]) == |a| + |b| + |c|
  {
    assert [a, b, c] == [] + [a] + [b] + [c];
    TotalNone();
    TotalAppend([], a);
    TotalAppend([] + [a], b);
    TotalAppend([] + [a] + [b], c);
  }

  lemma CutOne(a: string, q: string)
    requires SlashFree(a) && q != "" && q[0] != '/'
    ensures Split(a + "/" + q) == [a] + Split(q)
  {
    SplitOnce(a, q);
  }

  lemma CutFour(a: string, b: string, c: string, d: string)
    requires SlashFree(a) && SlashFree(b) && SlashFree(c) && SlashFree(d) && b != "" && c != "" && d != ""
    ensures Split(a + "/" + (b + "/" + (c + "/" + d))) == [a, b, c, d]
  {
    hide Split;
    var cd := c + "/" + d;
    assert cd[0] == c[0];
    CutOne(c, d);
    CutOne(b, cd);
    var bcd := b + "/" + cd;
    assert bcd[0] == b[0];
    CutOne(a, bcd);
    SplitWhole(d);
    assert [a] + ([b] + ([c] + [d])) == [a, b, c, d];
  }

  lemma HeldFour(b: string, c: string, h: string)
    requires b == "." && c != "" && c[0] != '.' && Hidden(h)
    ensures Held(["", b, c, h]) == ["", c, c]
  {
    var segs, after := ["", b, c, h], ["", c, c, h];
    SqueezeTurn(segs, 0, 0);
    SqueezeTurn(segs, 1, 1);
    SqueezeTurn(segs, 2, 1);
    SqueezeTurn(after, 3, 2);
    SqueezeEnd(after, 3);
    hide Squeeze;
    assert segs[0 := ""] == segs && segs[1 := c] == after;
    HeldBy(segs, after, 3);
  }

  /** A name taken away by ".." comes back for the hidden name behind it: "/" x "/../" h becomes
      "/" x. */
  lemma NameReturns(x: string, h: string)
    requires SlashFree(x) && x != "" && x[0] != '.' && SlashFree(h) && Hidden(h)
    ensures Normalize("/" + x + "/../" + h) == Accept("/" + x)
  {
    var p := "/" + x + "/../" + h;
    assert p == "" + "/" + (x + "/" + (".." + "/" + h)) by {
      assert "/../" + h == "/" + (".." + "/" + h);
    }
    CutFour("", x, "..", h);
    HeldUp(x, h);
    RootedOne(x);
    hide Split, Held, Rebuilt, Accept;
    assert p[0] == '/';
  }

  lemma RootedOne(x: string)
    ensures Rebuilt(["", x], true) == "/" + x
  {
    assert ["", x][1..] == [x];
    assert Join(["", x]) == "" + "/" + Join([x]) == "/" + x;
  }

  lemma HeldUp(x: string, h: string)
    requires x != "" && x[0] != '.' && Hidden(h)
    ensures Held(["", x, "..", h]) == ["", x]
  {
    var segs := ["", x, "..", h];
    SqueezeTurn(segs, 0, 0);
    SqueezeTurn(segs, 1, 1);
    SqueezeTurn(segs, 2, 2);
    SqueezeTurn(segs, 3, 1);
    SqueezeEnd(segs, 2);
    hide Squeeze;
    assert segs[0 := ""] == segs && segs[1 := x] == segs;
    HeldBy(segs, segs, 2);
  }

  /** Behind a "." or ".." alone a hidden name shows those dots again, which the next time go: "/./" h
      becomes "/." and "/../" h becomes "/..", and each of these becomes "/". */
  lemma DotsReturn(d: string, h: string)
    requires Dots(d) && SlashFree(h) && Hidden(h)
    ensures Normalize("/" + d + "/" + h) == Some("/" + d) && Normalize("/" + d) == Some("/")
  {
    CutDots(d, h);
    HeldDots(d, h);
    RootedOne(d);
    RootedOne("");
    hide Split, Held, Rebuilt;
    assert Rebuilt([""], true) == "/" by {
      RootAlone();
    }
    assert ("/" + d + "/" + h)[0] == '/' && "/" + "" == "/";
    assert '\\' !in "/" + d && '\\' !in "/";
  }

  lemma RootAlone()
    ensures Rebuilt([""], true) == "/"
  {
  }

  lemma CutDots(d: string, h: string)
    requires Dots(d) && SlashFree(h) && Hidden(h)
    ensures Split("/" + d + "/" + h) == ["", d, h] && Split("/" + d) == ["", d]
  {
    hide Split;
    assert "/" + d + "/" + h == "" + "/" + (d + "/" + h) && "/" + d == "" + "/" + d;
    SplitWhole(h);
    SplitWhole(d);
    CutOne(d, h);
    CutOne("", d + "/" + h);
    CutOne("", d);
    assert [""] + ([d] + [h]) == ["", d, h] && [""] + [d] == ["", d];
  }

  lemma HeldDots(d: string, h: string)
    requires Dots(d) && Hidden(h)
    ensures Held(["", d, h]) == ["", d] && Held(["", d]) == if d == "." then ["", ""] else [""]
  {
    var segs, last, empty := ["", d, h], ["", d], if d == "." then ["", ""] else ["", d];
    var n := if d == "." then 2 else 1;
    SqueezeTurn(segs, 0, 0);
    SqueezeTurn(segs, 1, 1);
    SqueezeTurn(segs, 2, 1);
    SqueezeEnd(segs, 2);
    SqueezeTurn(last, 0, 0);
    SqueezeTurn(last, 1, 1);
    SqueezeEnd(["", ""], 2);
    LastTurn(last);
    hide Squeeze;
    assert segs[0 := ""] == segs && last[0 := ""] == last && last[1 := ""] == ["", ""];
    HeldBy(segs, segs, 2);
    HeldBy(last, empty, n);
    assert segs[..2] == last && ["", ""][..2] == ["", ""] && last[..1] == [""];
  }

  lemma LastTurn(a: seq<string>)
    requires |a| == 2
    ensures Squeeze(a, 2, 1) == (a, 1)
  {
  }

  // ---------------------------------------------------------------- the whole function

  /** The loop that cuts the path up; `len` counts the characters outside of the slashes that part
      two segments, and the array allocated for the segments has room for them. */
  method SplitPath(p: string) returns (segs: seq<string>, len: nat)
    ensures segs == Split(p) && len == |p| - (|segs| - 1)
    ensures |segs| <= |p| + 1
  {
    hide Split;
    segs, len := [], 0;
    var mark, sp := 0, 0;
    assert p[0..] == p && [] + Split(p) == Split(p);
    while sp < |p|
      invariant 0 <= mark <= sp <= |p| && forall k :: mark <= k < sp ==> p[k] != '/'
      invariant segs + Split(p[mark..]) == Split(p) && len + |segs| == mark
    {
      if p[sp] == '/' {
        var seg := p[mark..sp];
        SplitHere(p, mark, sp);
        sp := SkipRun(p, sp);
        RegroupSegs(segs, seg, Split(p[sp + 1..]));
        segs := segs + [seg];
        len := len + (sp - mark);
        mark := sp + 1;
      }
      sp := sp + 1;
    }
    var tail := p[mark..];
    SplitWhole(tail);
    segs := segs + [tail];
    len := len + (sp - mark);
  }

  lemma RegroupSegs(a: seq<string>, b: string, c: seq<string>)
    ensures a + ([b] + c) == a + [b] + c
  {
  }

  lemma SplitWhole(s: string)
    requires SlashFree(s)
    ensures Split(s) == [s]
  {
    SlashFreeFirst(s, s, "");
  }

  lemma SplitHere(p: string, mark: nat, sp: nat)
    requires mark <= sp < |p| && (forall k :: mark <= k < sp ==> p[k] != '/') && p[sp] == '/'
    ensures Split(p[mark..]) == [p[mark..sp]] + Split(DropSlashes(p[sp + 1..]))
  {
    var q := p[mark..];
    assert q == p[mark..sp] + p[sp..];
    SlashFreeFirst(q, p[mark..sp], p[sp..]);
    assert q[sp - mark + 1..] == p[sp + 1..];
  }

  /** To the last of a run of slashes. */
  method SkipRun(p: string, from: nat) returns (sp: nat)
    requires from < |p|
    ensures from <= sp < |p| && p[sp + 1..] == DropSlashes(p[from + 1..])
  {
    sp := from;
    while sp + 1 < |p| && p[sp + 1] == '/'
      invariant from <= sp < |p| && DropSlashes(p[sp + 1..]) == DropSlashes(p[from + 1..])
    {
      assert p[sp + 1..][1..] == p[sp + 2..];
      sp := sp + 1;
    }
  }

  /** What is still to be written from the `i`-th segment on. */
  function Unwritten(segs: seq<string>, i: nat, rooted: bool): string
    requires i <= |segs|
    decreases |segs| - i
  {
    if i == |segs| then "" else segs[i] + Slash(segs, i + 1, rooted) + Unwritten(segs, i + 1, rooted)
  }

  function Slash(segs: seq<string>, i: nat, rooted: bool): string
    requires segs != []
  {
    if i < |segs| || (|segs| == 1 && segs[0] == "" && rooted) then "/" else ""
  }

  lemma {:induction false} UnwrittenIsJoin(segs: seq<string>, i: nat, rooted: bool)
    requires i < |segs| && !(|segs| == 1 && segs[0] == "" && rooted)
    ensures Unwritten(segs, i, rooted) == Join(segs[i..])
    decreases |segs| - i
  {
    if i + 1 < |segs| {
      UnwrittenIsJoin(segs, i + 1, rooted);
      assert segs[i..][1..] == segs[i + 1..];
    } else {
      assert segs[i..] == [segs[i]];
      assert Unwritten(segs, i + 1, rooted) == "";
    }
  }

  lemma UnwrittenIsRebuilt(segs: seq<string>, rooted: bool)
    ensures Unwritten(segs, 0, rooted) == Rebuilt(segs, rooted)
  {
    if |segs| == 1 && segs[0] == "" && rooted {
      assert Unwritten(segs, 1, rooted) == "";
    } else if segs != [] {
      UnwrittenIsJoin(segs, 0, rooted);
      assert segs[0..] == segs;
    }
  }

  /** strcpy. */
  method Put(path: array<char>, at: nat, s: string) returns (dp: nat)
    requires at + |s| <= path.Length
    modifies path
    ensures dp == at + |s| && path[..dp] == old(path[..at]) + s
  {
    for k := 0 to |s|
      invariant path[..at + k] == old(path[..at]) + s[..k]
    {
      path[at + k] := s[k];
    }
    dp := at + |s|;
  }

  /** One segment and the slash after it. */
  method WriteSegment(path: array<char>, at: nat, segs: seq<string>, i: nat, rooted: bool) returns (dp: nat)
    requires i < |segs| && at + |segs[i]| + |Slash(segs, i + 1, rooted)| <= path.Length
    modifies path
    ensures dp == at + |segs[i]| + |Slash(segs, i + 1, rooted)|
    ensures path[..dp] == old(path[..at]) + segs[i] + Slash(segs, i + 1, rooted)
  {
    dp := Put(path, at, segs[i]);
    if i + 1 < |segs| || (|segs| == 1 && segs[0] == "" && rooted) {
      path[dp] := '/';
      dp := dp + 1;
    }
  }

  /** The loop that writes the segments out. */
  method Rebuild(path: array<char>, segs: seq<string>, rooted: bool)
    requires |Rebuilt(segs, rooted)| < path.Length
    modifies path
    ensures TextIn(path, Rebuilt(segs, rooted))
  {
    UnwrittenIsRebuilt(segs, rooted);
    hide *;
    var dp := WriteSegments(path, segs, rooted, Rebuilt(segs, rooted));
    Terminate(path, dp, Rebuilt(segs, rooted));
  }

  method WriteSegments(path: array<char>, segs: seq<string>, rooted: bool, ghost whole: string) returns (dp: nat)
    requires Unwritten(segs, 0, rooted) == whole && |whole| < path.Length
    modifies path
    ensures dp == |whole| && path[..dp] == whole
  {
    UnwrittenEnd(segs, rooted);
    hide Rebuilt, Slash, Unwritten;
    dp := 0;
    var i: nat := 0;
    Nothing(path[..0], whole);
    while i < |segs|
      invariant i <= |segs| && dp <= |whole|
      invariant path[..dp] + Unwritten(segs, i, rooted) == whole
    {
      UnwrittenStep(path[..dp], segs, i, rooted, whole);
      dp := WriteSegment(path, dp, segs, i, rooted);
      i := i + 1;
    }
    Nothing([], path[..dp]);
  }

  lemma Nothing(a: string, b: string)
    requires a == []
    ensures a + b == b && b + a == b
  {
  }

  method Terminate(path: array<char>, dp: nat, ghost q: string)
    requires dp == |q| < path.Length && path[..dp] == q
    modifies path
    ensures TextIn(path, q)
  {
    path[dp] := '\0';
  }

  lemma UnwrittenEnd(segs: seq<string>, rooted: bool)
    ensures Unwritten(segs, |segs|, rooted) == ""
  {
  }

  lemma UnwrittenStep(done: string, segs: seq<string>, i: nat, rooted: bool, whole: string)
    requires i < |segs| && done + Unwritten(segs, i, rooted) == whole
    ensures done + segs[i] + Slash(segs, i + 1, rooted) + Unwritten(segs, i + 1, rooted) == whole
    ensures |done| + |segs[i]| + |Slash(segs, i + 1, rooted)| <= |whole|
  {
    var s, c, r := segs[i], Slash(segs, i + 1, rooted), Unwritten(segs, i + 1, rooted);
    assert Unwritten(segs, i, rooted) == s + c + r;
    hide Slash, Unwritten;
    assert done + (s + c + r) == done + s + c + r;
  }

  /** websNormalizeUriPath; `ok` is false where it returns null. */
  method NormalizeUriPath(pathArg: string) returns (ok: bool, path: array<char>)
    requires '\0' !in pathArg && Fits(pathArg)
    ensures ok <==> Normalize(pathArg).Some?
    ensures ok ==> TextIn(path, Normalize(pathArg).value)
    ensures pathArg != "" ==> path.Length == Block(pathArg)
  {
    if |pathArg| == 0 {
      path := new char[1]['\0'];
      return true, path;
    }
    var firstc := pathArg[0];
    var segs, len := SplitPath(pathArg);
    var segments := new string[|segs|](i requires 0 <= i < |segs| => segs[i]);
    assert segments[..] == segs;
    var nseg := CompactSegments(segments);
    var kept := segments[..nseg];
    HeldNulFree(pathArg);
    hide Rebuilt, Held, Split;
    path := new char[len + nseg + 1];
    Rebuild(path, kept, firstc == '/');
    ghost var q := Rebuilt(kept, firstc == '/');
    var back := HasBackslash(path, q);
    ok := path[0] == '/' && !back;
    assert q != "" ==> q[0] == path[..|q|][0];
  }

  /** strchr for a backslash. */
  method HasBackslash(path: array<char>, ghost q: string) returns (found: bool)
    requires TextIn(path, q) && '\0' !in q
    ensures found <==> '\\' in q
  {
    assert forall k :: 0 <= k < |q| ==> path[k] == q[k] && q[k] in q;
    var i := 0;
    while path[i] != '\0' && path[i] != '\\'
      invariant 0 <= i <= |q| && forall k :: 0 <= k < i ==> q[k] != '\\'
      decreases |q| - i
    {
      i := i + 1;
    }
    found := path[i] == '\\';
  }

  // ---------------------------------------------------------------- no terminator inside

  ghost predicate NulFree(segs: seq<string>) {
    forall i :: 0 <= i < |segs| ==> '\0' !in segs[i]
  }

  lemma {:induction false} SplitNulFree(p: string)
    requires '\0' !in p
    ensures NulFree(Split(p))
    decreases |p|
  {
    var k := FirstSlash(p);
    if k < |p| {
      DropNulFree(p[k + 1..]);
      SplitNulFree(DropSlashes(p[k + 1..]));
    }
  }

  lemma {:induction false} DropNulFree(p: string)
    requires '\0' !in p
    ensures '\0' !in DropSlashes(p)
  {
    if p != "" && p[0] == '/' {
      DropNulFree(p[1..]);
    }
  }

  lemma {:induction false} KeepNulFree(segs: seq<string>, names: seq<string>, i: nat, kept: seq<string>)
    requires i <= |segs| == |names| && NulFree(names) && NulFree(kept)
    ensures NulFree(Keep(segs, names, "", i, kept))
    decreases |segs| - i
  {
    if i < |segs| {
      KeepNulFree(segs, names, i + 1, Next(segs, names, "", i, kept));
    }
  }

  lemma HeldNulFree(p: string)
    requires p != "" && '\0' !in p
    ensures '\0' !in Rebuilt(Held(Split(p)), p[0] == '/')
  {
    var segs := Split(p);
    SplitNulFree(p);
    forall i | 0 <= i < |segs|
      ensures '\0' !in Shown(segs, i)
    {
      OccupantIs(segs, i, Depth(segs, i));
    }
    KeepNulFree(segs, AllShown(segs), 0, []);
    JoinNulFree(Held(segs));
  }

  lemma {:induction false} JoinNulFree(segs: seq<string>)
    requires NulFree(segs)
    ensures '\0' !in Join(segs)
  {
    if |segs| > 1 {
      JoinNulFree(segs[1..]);
    }
  }
}
