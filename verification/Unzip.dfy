/**
 Unpacking a project bundle: which path each entry of a zip file lands on.
 Paths are text with '/' separators; Clean, JoinPath and Rel are the library's
 path operations by their documented rules.
 */
module Unzip {
  import opened Common

  // ---------- Paths ----------

  function Split(s: string): (parts: seq<string>)
    ensures |parts| >= 1
  {
    if s == "" then [""]
    else if s[0] == '/' then [""] + Split(s[1..])
    else Prepend(s[0], Split(s[1..]))
  }

  /** c in front of the first part. */
  function Prepend(c: char, parts: seq<string>): (r: seq<string>)
    requires |parts| >= 1
    ensures |r| == |parts|
  {
    [[c] + parts[0]] + parts[1..]
  }

  function Join(parts: seq<string>): string {
    if parts == [] then "" else if |parts| == 1 then parts[0] else parts[0] + "/" + Join(parts[1..])
  }

  predicate IsRooted(s: string) {
    s != "" && s[0] == '/'
  }

  /** One path element: empty and "." vanish, ".." takes back the last element where there is one to take. */
  function Enter(rooted: bool, stack: seq<string>, part: string): seq<string> {
    if part == "" || part == "." then stack
    else if part != ".." then stack + [part]
    else if stack != [] && stack[|stack| - 1] != ".." then stack[..|stack| - 1]
    else if rooted then stack
    else stack + [".."]
  }

  function Resolve(rooted: bool, stack: seq<string>, parts: seq<string>): seq<string>
    decreases |parts|
  {
    if parts == [] then stack else Resolve(rooted, Enter(rooted, stack, parts[0]), parts[1..])
  }

  /** The elements of a path once cleaned. */
  function Elements(s: string): seq<string> {
    Resolve(IsRooted(s), [], Split(s))
  }

  function Render(rooted: bool, elements: seq<string>): string {
    if rooted then "/" + Join(elements) else if elements == [] then "." else Join(elements)
  }

  function Clean(s: string): string {
    Render(IsRooted(s), Elements(s))
  }

  /** Empty parts are ignored. */
  function JoinPath(a: string, b: string): string {
    if a == "" && b == "" then "" else if a == "" then Clean(b) else if b == "" then Clean(a) else Clean(a + "/" + b)
  }

  function CommonLength(a: seq<string>, b: seq<string>): (n: nat)
    ensures n <= |a| && n <= |b|
    ensures a[..n] == b[..n]
  {
    if a != [] && b != [] && a[0] == b[0] then 1 + CommonLength(a[1..], b[1..]) else 0
  }

  function Ups(n: nat): seq<string> {
    if n == 0 then [] else [".."] + Ups(n - 1)
  }

  /** The way from base to target, None where the library gives an error. */
  function Rel(base: string, target: string): Option<string> {
    var b, t := Elements(base), Elements(target);
    var n := CommonLength(b, t);
    if IsRooted(base) != IsRooted(target) || (n < |b| && b[n] == "..") then None
    else Some(Render(false, Ups(|b| - n) + t[n..]))
  }

  predicate HasPrefix(s: string, prefix: string) {
    prefix <= s
  }

  predicate WithinDir(base: string, target: string) {
    var rel := Rel(base, target);
    rel.Some? && rel.value != ".." && !HasPrefix(rel.value, "../")
  }

  /** Below dest by at least one element, and never back up. */
  ghost predicate StrictlyInside(dest: string, target: string) {
    && IsRooted(target) == IsRooted(dest)
    && Elements(dest) < Elements(target)
    && ".." !in Elements(target)[|Elements(dest)|..]
  }

  // ---------- Splitting and joining ----------

  lemma SplitFirst(c: char, s: string)
    ensures Split([c] + s) == if c == '/' then [""] + Split(s) else Prepend(c, Split(s))
  {
    assert ([c] + s)[1..] == s;
  }

  lemma {:induction false} SplitConcat(a: string, b: string)
    ensures Split(a + ['/'] + b) == Split(a) + Split(b)
  {
    if a == "" {
      assert a + ['/'] + b == ['/'] + b;
      SplitFirst('/', b);
    } else {
      var c, rest := a[0], a[1..];
      SplitConcat(rest, b);
      assert a == [c] + rest && a + ['/'] + b == [c] + (rest + ['/'] + b);
      SplitFirst(c, rest);
      SplitFirst(c, rest + ['/'] + b);
      AddFirst(c, Split(rest), Split(b));
    }
  }

  lemma AddFirst(c: char, x: seq<string>, y: seq<string>)
    requires |x| >= 1 && |y| >= 1
    ensures Prepend(c, x + y) == Prepend(c, x) + y
    ensures [""] + (x + y) == ([""] + x) + y
  {
  }

  lemma {:induction false} SplitHasNoSlash(s: string)
    ensures forall i :: 0 <= i < |Split(s)| ==> '/' !in Split(s)[i]
  {
    if s != "" {
      SplitHasNoSlash(s[1..]);
    }
  }

  lemma {:induction false} SplitPlain(s: string)
    requires '/' !in s
    ensures Split(s) == [s]
  {
    if s != "" {
      assert s[0] in s && s == [s[0]] + s[1..];
      SplitPlain(s[1..]);
    }
  }

  lemma {:induction false} SplitJoin(parts: seq<string>)
    requires parts != [] && forall i :: 0 <= i < |parts| ==> '/' !in parts[i]
    ensures Split(Join(parts)) == parts
  {
    SplitPlain(parts[0]);
    if |parts| > 1 {
      SplitJoin(parts[1..]);
      SplitConcat(parts[0], Join(parts[1..]));
    }
  }

  // ---------- Cleaning ----------

  predicate IsElement(part: string) {
    part != "" && part != "." && '/' !in part
  }

  /** Cleaned elements: ".." only at the front of an unrooted path. */
  predicate IsNormal(rooted: bool, elements: seq<string>) {
    && (forall i :: 0 <= i < |elements| ==> IsElement(elements[i]))
    && (forall i :: 0 <= i < |elements| && elements[i] == ".." ==>
          !rooted && (forall j :: 0 <= j < i ==> elements[j] == ".."))
  }

  lemma {:induction false} ResolveIsNormal(rooted: bool, stack: seq<string>, parts: seq<string>)
    requires IsNormal(rooted, stack) && forall i :: 0 <= i < |parts| ==> '/' !in parts[i]
    ensures IsNormal(rooted, Resolve(rooted, stack, parts))
    decreases |parts|
  {
    if parts != [] {
      ResolveIsNormal(rooted, Enter(rooted, stack, parts[0]), parts[1..]);
    }
  }

  lemma ResolveStep(rooted: bool, stack: seq<string>, parts: seq<string>)
    requires parts != []
    ensures Resolve(rooted, stack, parts) == Resolve(rooted, Enter(rooted, stack, parts[0]), parts[1..])
  {
  }

  lemma {:induction false} ResolveConcat(rooted: bool, stack: seq<string>, a: seq<string>, b: seq<string>)
    ensures Resolve(rooted, stack, a + b) == Resolve(rooted, Resolve(rooted, stack, a), b)
    decreases |a|
  {
    if a == [] {
      assert a + b == b;
    } else {
      var entered, rest := Enter(rooted, stack, a[0]), a[1..];
      ResolveConcat(rooted, entered, rest, b);
      ResolveStep(rooted, stack, a);
      assert (a + b)[0] == a[0] && (a + b)[1..] == rest + b;
      ResolveStep(rooted, stack, a + b);
    }
  }

  lemma {:induction false} ResolveOfNormal(rooted: bool, stack: seq<string>, parts: seq<string>)
    requires IsNormal(rooted, stack + parts)
    ensures Resolve(rooted, stack, parts) == stack + parts
    decreases |parts|
  {
    if parts == [] {
      assert stack + parts == stack;
    } else {
      var all, n := stack + parts, |stack|;
      assert all[n] == parts[0] && IsElement(all[n]);
      if parts[0] == ".." && stack != [] {
        assert all[n - 1] == stack[n - 1];
      }
      assert stack + parts == (stack + [parts[0]]) + parts[1..];
      ResolveOfNormal(rooted, stack + [parts[0]], parts[1..]);
    }
  }

  lemma ElementsAreNormal(s: string)
    ensures IsNormal(IsRooted(s), Elements(s))
  {
    SplitHasNoSlash(s);
    ResolveIsNormal(IsRooted(s), [], Split(s));
  }

  lemma {:induction false} JoinStart(parts: seq<string>)
    requires parts != [] && parts[0] != ""
    ensures Join(parts) != "" && Join(parts)[0] == parts[0][0]
  {
  }

  /** Rendering and reading back: a cleaned path has exactly the elements it shows. */
  lemma ElementsOfRender(rooted: bool, elements: seq<string>)
    requires IsNormal(rooted, elements)
    ensures IsRooted(Render(rooted, elements)) == rooted && Elements(Render(rooted, elements)) == elements
    ensures Render(rooted, elements) != ""
  {
    var s := Render(rooted, elements);
    if elements == [] {
      assert Split("") == [""];
      assert "/"[1..] == "" && Split("/") == ["", ""];
      SplitPlain(".");
      assert s == if rooted then "/" else ".";
      assert Resolve(rooted, [], [""]) == [];
      assert Resolve(rooted, [], ["."]) == [];
      assert ["", ""][1..] == [""];
    } else {
      SplitJoin(elements);
      assert IsElement(elements[0]);
      JoinStart(elements);
      ResolveOfNormal(rooted, [], elements);
      assert [] + elements == elements;
      if rooted {
        assert s[1..] == Join(elements);
        assert Split(s) == [""] + elements;
        assert ([""] + elements)[1..] == elements;
      }
    }
  }

  /** Cleaning is a normal form. */
  lemma CleanIsIdempotent(s: string)
    ensures Clean(Clean(s)) == Clean(s)
    ensures Elements(Clean(s)) == Elements(s) && IsRooted(Clean(s)) == IsRooted(s)
  {
    ElementsAreNormal(s);
    ElementsOfRender(IsRooted(s), Elements(s));
  }

  lemma NormalConcat(rooted: bool, a: seq<string>, b: seq<string>)
    requires IsNormal(rooted, a) && IsNormal(false, b) && ".." !in b
    ensures IsNormal(rooted, a + b)
  {
    forall i | 0 <= i < |a + b| ensures IsElement((a + b)[i]) {
      if i >= |a| {
        assert (a + b)[i] == b[i - |a|];
      }
    }
    assert forall k :: 0 <= k < |b| ==> b[k] in b;
    assert forall i :: |a| <= i < |a + b| ==> (a + b)[i] == b[i - |a|];
  }

  /** Joining a clean relative path below a clean directory appends its elements. */
  lemma JoinPathAppends(dest: string, name: string)
    requires Clean(dest) == dest && !IsRooted(name) && name != "" && ".." !in Elements(name)
    ensures Elements(JoinPath(dest, name)) == Elements(dest) + Elements(name)
    ensures IsRooted(JoinPath(dest, name)) == IsRooted(dest)
  {
    var r, d, n := IsRooted(dest), Elements(dest), Elements(name);
    ElementsAreNormal(dest);
    ElementsAreNormal(name);
    ElementsOfRender(r, d);
    var joined := dest + "/" + name;
    assert IsRooted(joined) == r;
    SplitConcat(dest, name);
    ResolveConcat(r, [], Split(dest), Split(name));
    ResolveBelow(r, d, [], Split(name));
    assert d + [] == d;
    NormalConcat(r, d, n);
    ElementsOfRender(r, d + n);
  }

  /** Once ".." has reached the front of the stack it stays. */
  lemma {:induction false} UpStays(stack: seq<string>, parts: seq<string>)
    requires stack != [] && stack[0] == ".."
    ensures ".." in Resolve(false, stack, parts)
    decreases |parts|
  {
    if parts != [] {
      UpStays(Enter(false, stack, parts[0]), parts[1..]);
    }
  }

  /** Parts that resolve without going up resolve the same way below any base. */
  lemma {:induction false} ResolveBelow(rooted: bool, base: seq<string>, stack: seq<string>, parts: seq<string>)
    requires ".." !in stack && ".." !in Resolve(false, stack, parts)
    ensures Resolve(rooted, base + stack, parts) == base + Resolve(false, stack, parts)
    decreases |parts|
  {
    if parts != [] {
      var next := Enter(false, stack, parts[0]);
      if ".." in next {
        UpFromPlain(stack, parts[0]);
        UpStays(next, parts[1..]);
        assert false;
      }
      assert Enter(rooted, base + stack, parts[0]) == base + next by {
        EnterBelow(rooted, base, stack, parts[0]);
      }
      ResolveBelow(rooted, base, next, parts[1..]);
    }
  }

  lemma UpFromPlain(stack: seq<string>, part: string)
    requires ".." !in stack && ".." in Enter(false, stack, part)
    ensures Enter(false, stack, part) == [".."]
  {
    assert forall i :: 0 <= i < |stack| ==> stack[i] in stack;
  }

  lemma EnterBelow(rooted: bool, base: seq<string>, stack: seq<string>, part: string)
    requires ".." !in stack && ".." !in Enter(false, stack, part)
    ensures Enter(rooted, base + stack, part) == base + Enter(false, stack, part)
  {
    if stack != [] {
      assert stack[|stack| - 1] in stack;
      assert (base + stack)[|base + stack| - 1] == stack[|stack| - 1];
    } else {
      assert base + stack == base;
      assert ".." in [".."];
    }
  }

  // ---------- The two steps of unpacking ----------

  /** First element of an entry's cleaned name, as singleRootPrefix splits it. */
  function Top(name: string): string {
    var p := Clean(name);
    Split(if p != "" && p[|p| - 1] == '/' then p[..|p| - 1] else p)[0]
  }

  datatype Entry = Entry(name: string, isDir: bool)

  predicate NamesNothing(entry: Entry) {
    Clean(entry.name) == "."
  }

  /** What singleRootPrefix looks at: nothing for an entry that names nothing. */
  function Tops(entries: seq<Entry>): (tops: seq<Option<string>>)
    ensures |tops| == |entries|
  {
    seq(|entries|, i requires 0 <= i < |entries| =>
      if NamesNothing(entries[i]) then None else Some(Top(entries[i].name)))
  }

  /** Among the first n entries every one that names anything starts with root, and some entry does. */
  ghost predicate IsSoleRoot(tops: seq<Option<string>>, n: nat, root: string)
    requires n <= |tops|
  {
    && root != "" && root != ".."
    && (forall i :: 0 <= i < n ==> tops[i] in {None, Some(root)})
    && (exists i :: 0 <= i < n && tops[i].Some?)
  }

  ghost predicate IsRootOf(entries: seq<Entry>, root: string) {
    IsSoleRoot(Tops(entries), |entries|, root)
  }

  method SoleRoot(tops: seq<Option<string>>) returns (strip: string)
    ensures strip == "" ==> forall root :: !IsSoleRoot(tops, |tops|, root)
    ensures strip != "" ==> exists root :: IsSoleRoot(tops, |tops|, root) && strip == root + "/"
  {
    var root := "";
    for i := 0 to |tops|
      invariant root == "" ==> forall j :: 0 <= j < i ==> tops[j].None?
      invariant root != "" ==> IsSoleRoot(tops, i, root)
    {
      if tops[i].None? {
        continue;
      }
      var top := tops[i].value;
      if top == "" || top == ".." {
        return "";
      }
      if root == "" {
        root := top;
      } else if top != root {
        return "";
      }
    }
    return if root == "" then "" else root + "/";
  }

  /** The prefix shared by all entries, with its slash; empty exactly when there is none. */
  method SingleRootPrefix(entries: seq<Entry>) returns (strip: string)
    ensures IsStrip(entries, strip)
    ensures strip == "" ==> forall root :: !IsRootOf(entries, root)
  {
    strip := SoleRoot(Tops(entries));
    assert strip != "" ==> forall root :: IsSoleRoot(Tops(entries), |entries|, root) ==> IsRootOf(entries, root);
  }

  /** The strip prefix SingleRootPrefix may return. */
  ghost predicate IsStrip(entries: seq<Entry>, strip: string) {
    strip == "" || exists root :: IsRootOf(entries, root) && strip == root + "/"
  }

  datatype Placement = Skip | Illegal | Slip | Place(target: string)

  function Stripped(strip: string, name: string): string {
    if strip != "" && HasPrefix(name, strip) then name[|strip|..] else name
  }

  /** What UnzipFile does with one entry before touching the disk; dest is clean. */
  function Placed(dest: string, strip: string, name: string): Placement
  {
    var clean := Clean(Stripped(strip, name));
    if strip != "" && name == strip then Skip
    else if clean == "." || clean == "" then Skip
    else if HasPrefix(clean, "..") || IsRooted(clean) then Illegal
    else if !WithinDir(dest, JoinPath(dest, clean)) then Slip
    else Place(JoinPath(dest, clean))
  }

  datatype Outcome = Extracted | RejectedAt(i: nat) | SlipAt(i: nat) | FailedAt(i: nat)

  datatype Step = Step(place: Placement, isDir: bool)

  function Plan(dest: string, strip: string, entries: seq<Entry>): seq<Step>
  {
    seq(|entries|, i requires 0 <= i < |entries| => Step(Placed(dest, strip, entries[i].name), entries[i].isDir))
  }

  lemma StepOfPlan(dest: string, strip: string, entries: seq<Entry>, i: nat)
    requires i < |entries|
    ensures Plan(dest, strip, entries)[i] == Step(Placed(dest, strip, entries[i].name), entries[i].isDir)
  {
  }

  predicate IsFileAt(step: Step, path: string) {
    !step.isDir && step.place == Place(path)
  }

  /** Where each file path's content comes from after the first n entries: the last entry placed there. */
  function Layout(plan: seq<Step>, n: nat): map<string, nat>
    requires n <= |plan|
  {
    if n == 0 then map[]
    else
      var before, step := Layout(plan, n - 1), plan[n - 1];
      if step.place.Place? && !step.isDir then before[step.place.target := n - 1] else before
  }

  predicate Passes(plan: seq<Step>, ioFails: set<nat>, k: nat)
    requires k < |plan|
  {
    plan[k].place.Skip? || (plan[k].place.Place? && k !in ioFails)
  }

  /** The first n entries passed, and their files are in place. */
  ghost predicate Unpacked(plan: seq<Step>, ioFails: set<nat>, n: nat, layout: map<string, nat>) {
    && n <= |plan|
    && (forall k :: 0 <= k < n ==> Passes(plan, ioFails, k))
    && layout == Layout(plan, n)
  }

  lemma UnpackOne(plan: seq<Step>, ioFails: set<nat>, n: nat, layout: map<string, nat>)
    requires Unpacked(plan, ioFails, n, layout) && n < |plan| && Passes(plan, ioFails, n)
    ensures var step := plan[n];
      Unpacked(plan, ioFails, n + 1,
               if step.place.Place? && !step.isDir then layout[step.place.target := n] else layout)
  {
  }

  /** An unpacking stops at the first entry that does not pass, having written exactly the files before it. */
  ghost predicate Follows(plan: seq<Step>, ioFails: set<nat>, out: Outcome, layout: map<string, nat>) {
    var n := if out.Extracted? then |plan| else out.i;
    && Unpacked(plan, ioFails, n, layout)
    && (!out.Extracted? ==> n < |plan|)
    && (out.RejectedAt? ==> plan[n].place.Illegal?)
    && (out.SlipAt? ==> plan[n].place.Slip?)
    && (out.FailedAt? ==> plan[n].place.Place? && n in ioFails)
  }

  /** The path handling of one entry. */
  method PlaceEntry(dest: string, strip: string, entryName: string) returns (p: Placement)
    ensures p == Placed(dest, strip, entryName)
  {
    var name := entryName;
    if strip != "" {
      if name == strip {
        return Skip;
      }
      if HasPrefix(name, strip) {
        name := name[|strip|..];
      }
    }
    name := Clean(name);
    if name == "." || name == "" {
      return Skip;
    }
    if HasPrefix(name, "..") || IsRooted(name) {
      return Illegal;
    }
    var target := JoinPath(dest, name);
    if !WithinDir(dest, target) {
      return Slip;
    }
    return Place(target);
  }

  method PlaceEntries(dest: string, strip: string, entries: seq<Entry>) returns (plan: seq<Step>)
    ensures plan == Plan(dest, strip, entries)
  {
    plan := [];
    for i := 0 to |entries|
      invariant |plan| == i
      invariant forall k :: 0 <= k < i ==> plan[k] == Plan(dest, strip, entries)[k]
    {
      var p := PlaceEntry(dest, strip, entries[i].name);
      StepOfPlan(dest, strip, entries, i);
      plan := plan + [Step(p, entries[i].isDir)];
    }
  }

  /** Writes entry by entry; stops at the first that is illegal or cannot be written (ioFails). */
  method Unpack(plan: seq<Step>, ioFails: set<nat>) returns (out: Outcome, layout: map<string, nat>)
    ensures Follows(plan, ioFails, out, layout)
  {
    layout := map[];
    for i := 0 to |plan|
      invariant Unpacked(plan, ioFails, i, layout)
    {
      if plan[i].place.Skip? || (plan[i].place.Place? && i !in ioFails) {
        UnpackOne(plan, ioFails, i, layout);
      }
      match plan[i].place {
        case Skip =>
        case Illegal => return RejectedAt(i), layout;
        case Slip => return SlipAt(i), layout;
        case Place(target) =>
          if i in ioFails {
            return FailedAt(i), layout;
          }
          if !plan[i].isDir {
            layout := layout[target := i];
          }
      }
    }
    out := Extracted;
  }

  /** Finding the root, placing an entry and writing it: placing depends on names alone, so it is done for all first. */
  method UnzipFile(destDir: string, entries: seq<Entry>, ioFails: set<nat>)
    returns (out: Outcome, strip: string, layout: map<string, nat>)
    ensures IsStrip(entries, strip)
    ensures Follows(Plan(Clean(destDir), strip, entries), ioFails, out, layout)
    ensures !out.SlipAt?
  {
    strip := SingleRootPrefix(entries);
    var dest := Clean(destDir);
    var plan := PlaceEntries(dest, strip, entries);
    out, layout := Unpack(plan, ioFails);
    if out.SlipAt? {
      CleanIsIdempotent(destDir);
      StepOfPlan(dest, strip, entries, out.i);
      NeverSlips(dest, strip, entries[out.i].name);
    }
  }

  // ---------- Everything lands strictly inside ----------

  lemma CleanIsNotEmpty(s: string)
    ensures Clean(s) != ""
  {
    ElementsAreNormal(s);
    ElementsOfRender(IsRooted(s), Elements(s));
  }

  lemma {:induction false} CommonLengthOfPrefix(a: seq<string>, b: seq<string>)
    ensures CommonLength(a, a + b) == |a|
  {
    if a != [] {
      CommonLengthOfPrefix(a[1..], b);
      assert (a + b)[1..] == a[1..] + b;
    }
  }

  lemma JoinBeginsWithFirst(parts: seq<string>)
    requires parts != []
    ensures parts[0] <= Join(parts)
  {
  }

  /** A clean relative name that does not begin with ".." contains no "..". */
  lemma LegalNamesStayDown(x: string)
    requires !HasPrefix(Clean(x), "..") && !IsRooted(Clean(x))
    ensures ".." !in Elements(x) && !IsRooted(x)
    ensures Clean(x) == "." <==> Elements(x) == []
  {
    CleanIsIdempotent(x);
    ElementsAreNormal(x);
    var e := Elements(x);
    if e != [] {
      JoinBeginsWithFirst(e);
      assert e[0] != "..";
      assert IsElement(e[0]);
      assert forall i :: 0 <= i < |e| ==> e[i] != "..";
    }
  }

  lemma TargetElements(dest: string, x: string)
    requires Clean(dest) == dest && Clean(x) != "." && !HasPrefix(Clean(x), "..") && !IsRooted(Clean(x))
    ensures Elements(JoinPath(dest, Clean(x))) == Elements(dest) + Elements(x)
    ensures IsRooted(JoinPath(dest, Clean(x))) == IsRooted(dest)
    ensures StrictlyInside(dest, JoinPath(dest, Clean(x)))
    ensures WithinDir(dest, JoinPath(dest, Clean(x)))
  {
    CleanIsIdempotent(x);
    CleanIsNotEmpty(dest);
    CleanIsNotEmpty(x);
    LegalNamesStayDown(x);
    JoinPathAppends(dest, Clean(x));
    var d, e := Elements(dest), Elements(x);
    assert (d + e)[|d|..] == e;
    CommonLengthOfPrefix(d, e);
    assert Ups(0) + e == e;
    assert Rel(dest, JoinPath(dest, Clean(x))) == Some(Clean(x));
  }

  /** The withinDir rejection is dead code: the checks before it already rule it out. */
  lemma NeverSlips(dest: string, strip: string, name: string)
    requires Clean(dest) == dest
    ensures !Placed(dest, strip, name).Slip?
    ensures Placed(dest, strip, name).Place? ==> StrictlyInside(dest, Placed(dest, strip, name).target)
  {
    CleanIsNotEmpty(dest);
    var x := Stripped(strip, name);
    if Clean(x) != "." && !HasPrefix(Clean(x), "..") && !IsRooted(Clean(x)) {
      TargetElements(dest, x);
    }
  }

  lemma {:induction false} LayoutHoldsLast(plan: seq<Step>, n: nat, path: string)
    requires n <= |plan| && path in Layout(plan, n)
    ensures var k := Layout(plan, n)[path];
      && k < n && IsFileAt(plan[k], path)
      && forall j :: k < j < n ==> !IsFileAt(plan[j], path)
  {
    if !IsFileAt(plan[n - 1], path) {
      LayoutHoldsLast(plan, n - 1, path);
    }
  }

  /** Every path written is strictly inside the directory and holds the last file entry placed on it. */
  lemma LayoutIsInside(dest: string, strip: string, entries: seq<Entry>, n: nat, path: string)
    requires Clean(dest) == dest && n <= |entries| && path in Layout(Plan(dest, strip, entries), n)
    ensures StrictlyInside(dest, path)
    ensures var plan := Plan(dest, strip, entries); var k := Layout(plan, n)[path];
      && k < n && IsFileAt(plan[k], path)
      && forall j :: k < j < n ==> !IsFileAt(plan[j], path)
  {
    var plan := Plan(dest, strip, entries);
    LayoutHoldsLast(plan, n, path);
    NeverSlips(dest, strip, entries[Layout(plan, n)[path]].name);
  }

  /** A file placed on a path no later file takes stays there. */
  lemma {:induction false} UncontestedFileIsKept(plan: seq<Step>, n: nat, k: nat, path: string)
    requires k < n <= |plan| && IsFileAt(plan[k], path)
    requires forall j :: k < j < n ==> !IsFileAt(plan[j], path)
    ensures path in Layout(plan, n) && Layout(plan, n)[path] == k
  {
    if k < n - 1 {
      UncontestedFileIsKept(plan, n - 1, k, path);
    }
  }

  // ---------- Root stripping keeps entries apart ----------

  /** Passes the checks on a cleaned name. */
  predicate IsLegal(x: string) {
    Clean(x) != "." && !HasPrefix(Clean(x), "..") && !IsRooted(Clean(x))
  }

  /** The entry is neither the root itself, nor nothing, nor refused. */
  predicate Lands(strip: string, name: string) {
    (strip != "" ==> name != strip) && IsLegal(Stripped(strip, name))
  }

  function Target(dest: string, strip: string, name: string): string {
    JoinPath(dest, Clean(Stripped(strip, name)))
  }

  /** Exactly the entries that land are placed, each on its target. */
  lemma PlacedExactly(dest: string, strip: string, name: string)
    requires Clean(dest) == dest
    ensures Placed(dest, strip, name).Place? <==> Lands(strip, name)
    ensures Lands(strip, name) ==> Placed(dest, strip, name) == Place(Target(dest, strip, name))
  {
    CleanIsNotEmpty(Stripped(strip, name));
    NeverSlips(dest, strip, name);
  }

  lemma JoinPathByElements(dest: string, x: string, y: string)
    requires Clean(dest) == dest && IsLegal(x) && IsLegal(y)
    ensures JoinPath(dest, Clean(x)) == JoinPath(dest, Clean(y)) <==> Elements(x) == Elements(y)
  {
    TargetElements(dest, x);
    TargetElements(dest, y);
    var d := Elements(dest);
    assert (d + Elements(x))[|d|..] == Elements(x) && (d + Elements(y))[|d|..] == Elements(y);
    CleanIsIdempotent(x);
    CleanIsIdempotent(y);
  }

  /** Stripping takes off the first element of the cleaned name, even from names that are not clean. */
  lemma StrippingDropsRoot(root: string, rest: string)
    requires IsElement(root) && root != ".." && IsLegal(rest)
    ensures Elements(root + "/" + rest) == [root] + Elements(rest)
  {
    CleanIsIdempotent(rest);
    LegalNamesStayDown(rest);
    SplitConcat(root, rest);
    SplitPlain(root);
    assert root + "/" + rest == root + ['/'] + rest;
    assert ([root] + Split(rest))[1..] == Split(rest);
    assert Enter(false, [], root) == [root];
    ResolveBelow(false, [root], [], Split(rest));
    assert [root] + [] == [root];
  }

  lemma LandingElements(root: string, name: string)
    requires IsElement(root) && root != ".." && Lands(root + "/", name)
    ensures Elements(name) ==
            (if HasPrefix(name, root + "/") then [root] else []) + Elements(Stripped(root + "/", name))
  {
    if HasPrefix(name, root + "/") {
      assert name == root + "/" + Stripped(root + "/", name);
      StrippingDropsRoot(root, Stripped(root + "/", name));
    } else {
      assert [] + Elements(name) == Elements(name);
    }
  }

  /** Same elements, or one name was stripped and is the other, unstripped, below root. */
  predicate MeetUnder(root: string, a: string, b: string) {
    var sa, sb := HasPrefix(a, root + "/"), HasPrefix(b, root + "/");
    if sa == sb then Elements(a) == Elements(b)
    else if sa then Elements(a) == [root] + Elements(b)
    else Elements(b) == [root] + Elements(a)
  }

  /** For any names at all, clean or not: exactly when two placed entries share a target. */
  lemma TargetsMeetIff(dest: string, root: string, a: string, b: string)
    requires Clean(dest) == dest && IsElement(root) && root != ".."
    requires Lands(root + "/", a) && Lands(root + "/", b)
    ensures Target(dest, root + "/", a) == Target(dest, root + "/", b) <==> MeetUnder(root, a, b)
  {
    var x, y := Stripped(root + "/", a), Stripped(root + "/", b);
    JoinPathByElements(dest, x, y);
    LandingElements(root, a);
    LandingElements(root, b);
    assert ([root] + Elements(x))[1..] == Elements(x) && ([root] + Elements(y))[1..] == Elements(y);
    assert [] + Elements(x) == Elements(x) && [] + Elements(y) == Elements(y);
  }

  /** As a well-formed archive writes it: clean, with a slash at the end of a directory. */
  predicate IsCleanName(name: string) {
    name == Clean(name) || name == Clean(name) + "/"
  }

  lemma {:induction false} JoinEndsPlain(parts: seq<string>)
    requires parts != [] && forall i :: 0 <= i < |parts| ==> IsElement(parts[i])
    ensures Join(parts) != "" && Join(parts)[|Join(parts)| - 1] != '/'
  {
    if |parts| > 1 {
      JoinEndsPlain(parts[1..]);
    } else {
      assert parts[0][|parts[0]| - 1] in parts[0];
    }
  }

  lemma RootedTopIsEmpty(name: string)
    requires IsRooted(name)
    ensures Top(name) == ""
  {
    var p := Clean(name);
    var q := if p[|p| - 1] == '/' then p[..|p| - 1] else p;
    if |p| > 1 {
      assert q[0] == '/';
    }
  }

  /** The first element singleRootPrefix compares is that of the cleaned name. */
  lemma TopIsFirstElement(name: string)
    requires Top(name) != "" && Clean(name) != "."
    ensures !IsRooted(name) && Elements(name) != [] && Top(name) == Elements(name)[0]
    ensures IsElement(Top(name))
  {
    ElementsAreNormal(name);
    if IsRooted(name) {
      RootedTopIsEmpty(name);
    } else {
      JoinEndsPlain(Elements(name));
      SplitJoin(Elements(name));
    }
  }

  lemma JoinBeginsWithPrefix(parts: seq<string>)
    requires |parts| > 1
    ensures parts[0] + "/" <= Join(parts)
  {
    assert Join(parts) == parts[0] + "/" + Join(parts[1..]);
  }

  /** A clean name below root that lacks the prefix is root itself. */
  lemma OnlyRootLacksPrefix(root: string, name: string)
    requires Clean(name) != "." && Top(name) == root && root != "" && IsCleanName(name) && !HasPrefix(name, root + "/")
    ensures name == root && Elements(name) == [root]
  {
    TopIsFirstElement(name);
    var e := Elements(name);
    if |e| > 1 {
      JoinBeginsWithPrefix(e);
    } else {
      assert e == [root];
    }
  }

  /** A clean name of something whose first element is root. */
  predicate IsUnder(root: string, name: string) {
    IsCleanName(name) && Clean(name) != "." && Top(name) == root
  }

  /**
   When names are clean, stripping the sole root maps two different names to one
   target exactly when one is the bare root and the other is root/root.
   */
  lemma CleanNamesMeetIff(dest: string, root: string, a: string, b: string)
    requires Clean(dest) == dest && root != "" && root != ".." && IsUnder(root, a) && IsUnder(root, b)
    requires Lands(root + "/", a) && Lands(root + "/", b) && Elements(a) != Elements(b)
    ensures Target(dest, root + "/", a) == Target(dest, root + "/", b) <==>
      (a == root && Elements(b) == [root, root]) || (b == root && Elements(a) == [root, root])
  {
    TopIsFirstElement(a);
    TargetsMeetIff(dest, root, a, b);
    assert [root] + [root] == [root, root];
    if !HasPrefix(a, root + "/") {
      OnlyRootLacksPrefix(root, a);
    }
    if !HasPrefix(b, root + "/") {
      OnlyRootLacksPrefix(root, b);
    }
  }

  /** An entry that lands names something, so its first element is the sole root. */
  lemma LandingIsUnderRoot(entries: seq<Entry>, root: string, i: nat)
    requires i < |entries| && IsRootOf(entries, root)
    requires IsCleanName(entries[i].name) && Lands(root + "/", entries[i].name)
    ensures IsUnder(root, entries[i].name)
  {
    assert Tops(entries)[i] in {None, Some(root)};
  }

  /** Clean, distinct names, directories marked by their slash, and no file above another entry. */
  ghost predicate IsSaneArchive(entries: seq<Entry>) {
    && (forall i :: 0 <= i < |entries| ==> IsCleanName(entries[i].name))
    && (forall i :: 0 <= i < |entries| && entries[i].isDir ==> entries[i].name == Clean(entries[i].name) + "/")
    && (forall i, j :: 0 <= i < j < |entries| ==> Elements(entries[i].name) != Elements(entries[j].name))
    && (forall i, j :: 0 <= i < |entries| && 0 <= j < |entries| && !entries[i].isDir ==>
          !(Elements(entries[i].name) < Elements(entries[j].name)))
  }

  lemma CleanPair(root: string)
    requires IsElement(root) && root != ".."
    ensures Clean(root) == root && Elements(root) == [root] && Top(root) == root
    ensures var pair := root + "/" + root;
      Clean(pair) == pair && Elements(pair) == [root, root] && Top(pair) == root
  {
    assert [root, root][1..] == [root];
    assert Join([root, root]) == root + "/" + Join([root, root][1..]);
    assert Render(false, [root, root]) == root + "/" + root;
    CleanAsRendered([root]);
    CleanAsRendered([root, root]);
  }

  lemma CleanAsRendered(elements: seq<string>)
    requires elements != [] && IsNormal(false, elements)
    ensures var s := Render(false, elements);
      Clean(s) == s && Elements(s) == elements && Top(s) == elements[0]
  {
    ElementsOfRender(false, elements);
    JoinEndsPlain(elements);
    SplitJoin(elements);
  }

  /**
   A root that is a directory entry without its slash does collide with
   root/root, although no file is above another entry.
   */
  lemma BareRootDirectoryCollides(dest: string, root: string)
    requires Clean(dest) == dest && IsElement(root) && !HasPrefix(root, "..")
    ensures var pair := root + "/" + root; var entries := [Entry(root, true), Entry(pair, false)];
      && IsRootOf(entries, root) && IsUnder(root, root) && IsUnder(root, pair)
      && Lands(root + "/", root) && Lands(root + "/", pair)
      && Target(dest, root + "/", root) == Target(dest, root + "/", pair)
  {
    CleanPair(root);
    var pair := root + "/" + root;
    var entries := [Entry(root, true), Entry(pair, false)];
    assert Tops(entries)[0] == Some(root) && Tops(entries)[1] == Some(root);
    assert |root + "/"| > |root| && Stripped(root + "/", root) == root;
    assert pair == (root + "/") + root && Stripped(root + "/", pair) == root;
    assert root[0] in root;
  }

  lemma BareRootIsFile(entries: seq<Entry>, root: string, i: nat)
    requires IsSaneArchive(entries) && i < |entries| && entries[i].name == root && Elements(root) == [root]
    ensures !entries[i].isDir
  {
    assert Join([root]) == root && |Clean(root)| >= |root|;
  }

  lemma NothingBelowBareRoot(entries: seq<Entry>, root: string, i: nat, j: nat)
    requires IsSaneArchive(entries) && i < |entries| && j < |entries|
    requires entries[i].name == root && Elements(root) == [root]
    ensures Elements(entries[j].name) != [root, root]
  {
    BareRootIsFile(entries, root, i);
    assert [root] < [root, root];
  }

  lemma SaneEntriesStayApart(dest: string, strip: string, entries: seq<Entry>, i: nat, j: nat)
    requires Clean(dest) == dest && IsSaneArchive(entries) && IsStrip(entries, strip)
    requires i < |entries| && j < |entries| && i != j
    requires Lands(strip, entries[i].name) && Lands(strip, entries[j].name)
    ensures Target(dest, strip, entries[i].name) != Target(dest, strip, entries[j].name)
  {
    var a, b := entries[i].name, entries[j].name;
    if strip == "" {
      JoinPathByElements(dest, a, b);
    } else {
      var root :| IsRootOf(entries, root) && strip == root + "/";
      LandingIsUnderRoot(entries, root, i);
      LandingIsUnderRoot(entries, root, j);
      CleanNamesMeetIff(dest, root, a, b);
      if a == root {
        OnlyRootLacksPrefix(root, a);
        NothingBelowBareRoot(entries, root, i, j);
      }
      if b == root {
        OnlyRootLacksPrefix(root, b);
        NothingBelowBareRoot(entries, root, j, i);
      }
    }
  }

  /** Unpacking such an archive loses no file: each one that lands is found at its own target at the end. */
  lemma SaneArchivesKeepEveryFile(dest: string, strip: string, entries: seq<Entry>, k: nat)
    requires Clean(dest) == dest && IsSaneArchive(entries) && IsStrip(entries, strip)
    requires k < |entries| && !entries[k].isDir && Lands(strip, entries[k].name)
    ensures var layout := Layout(Plan(dest, strip, entries), |entries|);
      var target := Target(dest, strip, entries[k].name);
      target in layout && layout[target] == k
  {
    var plan, path := Plan(dest, strip, entries), Target(dest, strip, entries[k].name);
    PlacedExactly(dest, strip, entries[k].name);
    forall j | k < j < |entries| ensures !IsFileAt(plan[j], path) {
      PlacedExactly(dest, strip, entries[j].name);
      if plan[j].place.Place? {
        SaneEntriesStayApart(dest, strip, entries, k, j);
      }
    }
    UncontestedFileIsKept(plan, |entries|, k, path);
  }

  // ---------- The path rules in plain words ----------

  /** One more part: nothing and "." change nothing, ".." takes back the last element, any other adds itself. */
  lemma OneMorePart(x: string, c: string)
    requires x != "" && '/' !in c
    ensures IsRooted(x + "/" + c) == IsRooted(x)
    ensures c == "" || c == "." ==> Elements(x + "/" + c) == Elements(x)
    ensures c != "" && c != "." && c != ".." ==> Elements(x + "/" + c) == Elements(x) + [c]
    ensures var e := Elements(x);
      c == ".." ==>
        && (e != [] && e[|e| - 1] != ".." ==> Elements(x + "/" + c) == e[..|e| - 1])
        && (e == [] || e[|e| - 1] == ".." ==> Elements(x + "/" + c) == if IsRooted(x) then e else e + [".."])
  {
    assert x + "/" + c == x + ['/'] + c;
    SplitConcat(x, c);
    SplitPlain(c);
    ResolveConcat(IsRooted(x), [], Split(x), Split(c));
    ResolveStep(IsRooted(x), Elements(x), [c]);
    assert [c][1..] == [];
  }

  lemma JoinStartsUp(parts: seq<string>)
    requires parts != [] && parts[0] == ".."
    ensures Join(parts) == ".." || HasPrefix(Join(parts), "../")
  {
    if |parts| > 1 {
      assert Join(parts) == ".." + "/" + Join(parts[1..]);
      assert Join(parts)[..3] == "../";
    }
  }

  lemma JoinStaysDown(parts: seq<string>)
    requires parts != [] && IsElement(parts[0]) && parts[0] != ".."
    ensures Join(parts) != ".." && !HasPrefix(Join(parts), "../")
    ensures HasPrefix(Join(parts), "..") <==> HasPrefix(parts[0], "..")
  {
    var p, j := parts[0], Join(parts);
    if |parts| > 1 {
      assert j == p + ("/" + Join(parts[1..]));
    }
    FirstThree(p, j[|p|..]);
    assert j == p + j[|p|..];
  }

  /** An element and what follows it, from a slash on, begins like the element. */
  lemma FirstThree(p: string, rest: string)
    requires IsElement(p) && p != ".." && (rest == "" || rest[0] == '/')
    ensures p + rest != ".." && !HasPrefix(p + rest, "../")
    ensures HasPrefix(p + rest, "..") <==> HasPrefix(p, "..")
  {
    var j := p + rest;
    assert forall i :: 0 <= i < |p| ==> j[i] == p[i] && p[i] in p;
    if |p| == 1 {
      assert p == [p[0]] && p[0] != '.';
      assert j[0] == p[0];
    } else if |p| == 2 {
      assert p == [p[0], p[1]];
      assert j[0] == p[0] && j[1] == p[1];
    } else {
      assert j[0] == p[0] && j[1] == p[1] && j[2] == p[2];
    }
  }

  /** Where the base's elements begin the target's, the way leads down. */
  lemma BelowIsWithin(base: string, target: string)
    requires ".." !in Elements(target) && Elements(base) <= Elements(target)
    ensures WithinDir(base, target) <==> IsRooted(base) == IsRooted(target)
  {
    var b, t := Elements(base), Elements(target);
    assert t == b + t[|b|..];
    CommonLengthOfPrefix(b, t[|b|..]);
    ElementsAreNormal(target);
    WayDown(t[|b|..]);
    assert Ups(0) + t[|b|..] == t[|b|..];
  }

  /** Where they do not, it leads up. */
  lemma ElsewhereIsNotWithin(base: string, target: string)
    requires !(Elements(base) <= Elements(target))
    ensures !WithinDir(base, target)
  {
    var b, t := Elements(base), Elements(target);
    var n := CommonLength(b, t);
    assert n < |b| by {
      assert b[..|b|] == b;
    }
    WayUp(|b| - n, t[n..]);
  }

  /** withinDir accepts exactly the paths at or below the base, for paths that do not begin by going up. */
  lemma WithinDirMeansBelow(base: string, target: string)
    requires ".." !in Elements(target)
    ensures WithinDir(base, target) <==> IsRooted(base) == IsRooted(target) && Elements(base) <= Elements(target)
  {
    if Elements(base) <= Elements(target) {
      BelowIsWithin(base, target);
    } else {
      ElsewhereIsNotWithin(base, target);
    }
  }

  lemma WayDown(way: seq<string>)
    requires ".." !in way && forall i :: 0 <= i < |way| ==> IsElement(way[i])
    ensures Render(false, way) != ".." && !HasPrefix(Render(false, way), "../")
  {
    if way != [] {
      assert way[0] in way;
      JoinStaysDown(way);
    }
  }

  lemma WayUp(n: nat, rest: seq<string>)
    requires n > 0
    ensures var rel := Render(false, Ups(n) + rest); rel == ".." || HasPrefix(rel, "../")
  {
    assert (Ups(n) + rest)[0] == "..";
    JoinStartsUp(Ups(n) + rest);
  }

  /** Where an entry goes, by the elements of its stripped name. */
  lemma PlacedByElements(dest: string, strip: string, name: string)
    requires Clean(dest) == dest
    ensures var x := Stripped(strip, name); var p := Placed(dest, strip, name);
      && ((strip != "" && name == strip) || (!IsRooted(x) && Elements(x) == []) ==> p == Skip)
      && (!(strip != "" && name == strip) && (IsRooted(x) || (Elements(x) != [] && HasPrefix(Elements(x)[0], ".."))) ==>
            p == Illegal)
      && (!(strip != "" && name == strip) && !IsRooted(x) && Elements(x) != [] && !HasPrefix(Elements(x)[0], "..") ==>
            && p.Place? && IsRooted(p.target) == IsRooted(dest)
            && Elements(p.target) == Elements(dest) + Elements(x))
  {
    var x := Stripped(strip, name);
    ElementsAreNormal(x);
    ElementsOfRender(IsRooted(x), Elements(x));
    if !IsRooted(x) && Elements(x) != [] {
      CleanBegins(x);
      if !HasPrefix(Elements(x)[0], "..") && !(strip != "" && name == strip) {
        TargetElements(dest, x);
      }
    }
  }

  /** A clean relative path begins with ".." exactly if its first element does. */
  lemma CleanBegins(x: string)
    requires !IsRooted(x) && Elements(x) != []
    ensures Clean(x) != "." && Clean(x) != "" && !IsRooted(Clean(x))
    ensures HasPrefix(Clean(x), "..") <==> HasPrefix(Elements(x)[0], "..")
  {
    var e := Elements(x);
    ElementsAreNormal(x);
    ElementsOfRender(false, e);
    assert IsElement(e[0]);
    if e[0] == ".." {
      JoinStartsUp(e);
    } else {
      JoinStaysDown(e);
    }
    LegalOrNot(e);
  }

  lemma LegalOrNot(e: seq<string>)
    requires e != [] && IsElement(e[0])
    ensures Join(e) != "."
  {
    if |e| > 1 {
      assert Join(e) == e[0] + ("/" + Join(e[1..]));
      assert |Join(e)| >= 2;
    }
  }

  /** When every entry lies below one element, that is the root singleRootPrefix finds. */
  lemma SharedFirstElementIsRoot(entries: seq<Entry>, root: string)
    requires entries != [] && root != ".."
    requires forall i :: 0 <= i < |entries| ==>
      !IsRooted(entries[i].name) && Elements(entries[i].name) != [] && Elements(entries[i].name)[0] == root
    ensures IsRootOf(entries, root)
  {
    forall i | 0 <= i < |entries| ensures Tops(entries)[i] == Some(root) {
      var name := entries[i].name;
      CleanBegins(name);
      ElementsAreNormal(name);
      JoinEndsPlain(Elements(name));
      SplitJoin(Elements(name));
    }
    ElementsAreNormal(entries[0].name);
    assert IsElement(root);
    assert Tops(entries)[0] == Some(root);
  }
}
