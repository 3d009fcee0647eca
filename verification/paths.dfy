/** Slash-separated paths as Go's `path/filepath` treats them on Unix.
    `Clean` reduces a path lexically to its shortest equivalent; `Join`,
    `Rel` and `Dir` clean what they produce or compare, as the library
    does. `Ext` looks only at the final element. */
module Paths {
  import opened Wrappers
  import opened Text

  const Separator: char := '/'

  /** The element that names the parent directory. */
  const Parent: string := ".."

  /** What a cleaned path may hold between separators: a non-empty name
      other than ".", possibly "..". */
  predicate IsElement(e: string) {
    e != "" && e != "." && Separator !in e
  }

  /** The parts of a split path that name something: the empty parts that
      doubled, leading and trailing separators leave, and ".", are dropped. */
  function Named(parts: seq<string>): seq<string> {
    if |parts| == 0 then []
    else (if parts[0] == "" || parts[0] == "." then [] else [parts[0]]) + Named(parts[1..])
  }

  /** What `Named` keeps of separator-free parts are elements. */
  lemma {:induction false} NamedKept(parts: seq<string>)
    requires forall k :: 0 <= k < |parts| ==> Separator !in parts[k]
    ensures forall k :: 0 <= k < |Named(parts)| ==> IsElement(Named(parts)[k])
  {
    if |parts| > 0 {
      NamedKept(parts[1..]);
      var head: seq<string> := if parts[0] == "" || parts[0] == "." then [] else [parts[0]];
      var es := Named(parts);
      assert es == head + Named(parts[1..]);
      forall k | 0 <= k < |es|
        ensures IsElement(es[k])
      {
        if k >= |head| {
          assert es[k] == Named(parts[1..])[k - |head|];
        }
      }
    }
  }

  /** The elements of `p`, in order. */
  function Elements(p: string): seq<string> {
    Named(Split(p, Separator))
  }

  /** Every element of a path is an element. */
  lemma ElementsAreElements(p: string)
    ensures forall k :: 0 <= k < |Elements(p)| ==> IsElement(Elements(p)[k])
  {
    NamedKept(Split(p, Separator));
  }

  predicate Rooted(p: string) {
    |p| > 0 && p[0] == Separator
  }

  /** One element of `Clean`'s scan: a name is appended; ".." removes the
      name before it, is dropped right after the root, and is kept at the
      front of a relative path. */
  function Push(stack: seq<string>, e: string, rooted: bool): seq<string> {
    if e != Parent then stack + [e]
    else if |stack| > 0 && stack[|stack| - 1] != Parent then stack[..|stack| - 1]
    else if rooted then stack
    else stack + [Parent]
  }

  /** The scan over `es`, starting from the elements already in `stack`. */
  function Reduce(stack: seq<string>, es: seq<string>, rooted: bool): seq<string>
    decreases |es|
  {
    if |es| == 0 then stack else Reduce(Push(stack, es[0], rooted), es[1..], rooted)
  }

  /** The elements of a cleaned path: ".." only at the front, and only in a
      relative path. */
  predicate Reduced(es: seq<string>, rooted: bool) {
    && (forall k :: 0 <= k < |es| ==> IsElement(es[k]))
    && (rooted ==> forall k :: 0 <= k < |es| ==> es[k] != Parent)
    && (forall i, j :: 0 <= i < j < |es| && es[j] == Parent ==> es[i] == Parent)
  }

  /** A path spelled from its elements: "/" in front of a rooted one, "."
      for a relative one with none. */
  function Render(es: seq<string>, rooted: bool): string {
    if rooted then [Separator] + JoinWith(es, Separator)
    else if |es| == 0 then "."
    else JoinWith(es, Separator)
  }

  /** The elements `Clean` keeps. */
  function Parts(p: string): seq<string> {
    Reduce([], Elements(p), Rooted(p))
  }

  /** The kept elements are in cleaned form. */
  lemma PartsReduced(p: string)
    ensures Reduced(Parts(p), Rooted(p))
  {
    ElementsAreElements(p);
    ReduceReduced([], Elements(p), Rooted(p));
  }

  /** `filepath.Clean(p)`: the scan's elements spelled out again; the result
      is rooted exactly when `p` is. */
  function Clean(p: string): (c: string)
    ensures Rooted(c) == Rooted(p)
  {
    PartsReduced(p);
    RenderRooted(Parts(p), Rooted(p));
    Render(Parts(p), Rooted(p))
  }

  /** Reading the elements of a cleaned path gives back what the scan kept. */
  lemma CleanElements(p: string)
    ensures Elements(Clean(p)) == Parts(p)
  {
    PartsReduced(p);
    RenderElements(Parts(p), Rooted(p));
  }

  lemma ElementsDot()
    ensures Elements(".") == []
  {
    assert Split(".", Separator) == ["."];
    assert Named(["."]) == [] by {
      assert ["."][1..] == [];
    }
  }

  lemma ElementsEmpty()
    ensures Elements("") == []
  {
    assert Split("", Separator) == [""];
    assert Named([""]) == [] by {
      assert [""][1..] == [];
    }
  }

  /** Spelling out elements keeps the rootedness asked for. */
  lemma RenderRooted(es: seq<string>, rooted: bool)
    requires forall k :: 0 <= k < |es| ==> IsElement(es[k])
    ensures Rooted(Render(es, rooted)) == rooted
  {
    if !rooted && |es| > 0 {
      JoinHead(es);
    }
  }

  /** A join of elements starts with the first element's first character. */
  lemma JoinHead(es: seq<string>)
    requires |es| > 0 && es[0] != ""
    ensures |JoinWith(es, Separator)| > 0 && JoinWith(es, Separator)[0] == es[0][0]
  {
    if |es| > 1 {
      assert JoinWith(es, Separator) == es[0] + [Separator] + JoinWith(es[1..], Separator);
    }
  }

  /** A kept element keeps the stack in cleaned form. */
  lemma PushReduced(stack: seq<string>, e: string, rooted: bool)
    requires Reduced(stack, rooted) && IsElement(e)
    ensures Reduced(Push(stack, e, rooted), rooted)
  {
    var r := Push(stack, e, rooted);
    if e == Parent && !(|stack| > 0 && stack[|stack| - 1] != Parent) && !rooted {
      forall i, j | 0 <= i < j < |r| && r[j] == Parent
        ensures r[i] == Parent
      {
        if j < |stack| {
        } else {
          assert stack[|stack| - 1] == Parent;
          if i < |stack| - 1 {
          }
        }
      }
    } else if e != Parent {
      forall i, j | 0 <= i < j < |r| && r[j] == Parent
        ensures r[i] == Parent
      {
        assert j < |stack|;
      }
    }
  }

  /** The scan keeps a cleaned stack cleaned. */
  lemma {:induction false} ReduceReduced(stack: seq<string>, es: seq<string>, rooted: bool)
    requires Reduced(stack, rooted)
    requires forall k :: 0 <= k < |es| ==> IsElement(es[k])
    ensures Reduced(Reduce(stack, es, rooted), rooted)
    decreases |es|
  {
    if |es| > 0 {
      PushReduced(stack, es[0], rooted);
      ReduceReduced(Push(stack, es[0], rooted), es[1..], rooted);
    }
  }

  /** Scanning `a + b` is scanning `a`, then `b`. */
  lemma {:induction false} ReduceConcat(stack: seq<string>, a: seq<string>, b: seq<string>, rooted: bool)
    ensures Reduce(stack, a + b, rooted) == Reduce(Reduce(stack, a, rooted), b, rooted)
    decreases |a|
  {
    if |a| > 0 {
      assert (a + b)[0] == a[0] && (a + b)[1..] == a[1..] + b;
      ReduceConcat(Push(stack, a[0], rooted), a[1..], b, rooted);
    } else {
      assert a + b == b;
    }
  }

  /** Elements without ".." are simply appended. */
  lemma {:induction false} ReduceAppends(stack: seq<string>, es: seq<string>, rooted: bool)
    requires forall k :: 0 <= k < |es| ==> es[k] != Parent
    ensures Reduce(stack, es, rooted) == stack + es
    decreases |es|
  {
    if |es| > 0 {
      ReduceAppends(stack + [es[0]], es[1..], rooted);
      assert stack + [es[0]] + es[1..] == stack + es;
    }
  }

  /** Scanning the rest of a cleaned list onto its front gives it back:
      cleaning changes nothing that is already clean. */
  lemma {:induction false} ReduceFixpoint(es: seq<string>, n: nat, rooted: bool)
    requires Reduced(es, rooted) && n <= |es|
    ensures Reduce(es[..n], es[n..], rooted) == es
    decreases |es| - n
  {
    if n < |es| {
      if es[n] == Parent && n > 0 {
        assert es[n - 1] == Parent;
      }
      assert Push(es[..n], es[n], rooted) == es[..n + 1];
      assert es[n..][1..] == es[n + 1..];
      ReduceFixpoint(es, n + 1, rooted);
    } else {
      assert es[..n] == es;
    }
  }

  /** ".." steps up out of the trailing names of a cleaned list, one name
      per "..". */
  lemma {:induction false} ClimbOut(es: seq<string>, n: nat, rooted: bool)
    requires Reduced(es, rooted) && n <= |es|
    requires n < |es| ==> es[n] != Parent
    ensures Reduce(es, Ups(|es| - n), rooted) == es[..n]
    decreases |es| - n
  {
    if n < |es| {
      var last := |es| - 1;
      assert es[last] != Parent by {
        assert es[n] != Parent;
      }
      var shorter := es[..last];
      assert Ups(|es| - n)[1..] == Ups(|shorter| - n);
      assert Push(es, Parent, rooted) == shorter;
      ClimbOut(shorter, n, rooted);
      assert shorter[..n] == es[..n];
    } else {
      assert es[..n] == es;
    }
  }

  /** Every kept part is its own element. */
  lemma {:induction false} NamedElements(es: seq<string>)
    requires forall k :: 0 <= k < |es| ==> IsElement(es[k])
    ensures Named(es) == es
    decreases |es|
  {
    if |es| > 0 {
      NamedElements(es[1..]);
      assert es == [es[0]] + es[1..];
    }
  }

  lemma {:induction false} NamedConcat(a: seq<string>, b: seq<string>)
    ensures Named(a + b) == Named(a) + Named(b)
    decreases |a|
  {
    if |a| > 0 {
      assert (a + b)[0] == a[0] && (a + b)[1..] == a[1..] + b;
      NamedConcat(a[1..], b);
    } else {
      assert a + b == b;
    }
  }

  /** The elements on the two sides of a separator, one after the other. */
  lemma ElementsConcat(a: string, c: string)
    ensures Elements(a + [Separator] + c) == Elements(a) + Elements(c)
  {
    SplitConcat(a, c, Separator);
    NamedConcat(Split(a, Separator), Split(c, Separator));
  }

  /** The elements of a list of elements joined with separators. */
  lemma ElementsOfJoin(es: seq<string>)
    requires forall k :: 0 <= k < |es| ==> IsElement(es[k])
    ensures Elements(JoinWith(es, Separator)) == es
  {
    if |es| == 0 {
      ElementsEmpty();
    } else {
      SplitJoin(es, Separator);
      NamedElements(es);
    }
  }

  /** Spelling out elements and reading them back is lossless. */
  lemma RenderElements(es: seq<string>, rooted: bool)
    requires forall k :: 0 <= k < |es| ==> IsElement(es[k])
    ensures Elements(Render(es, rooted)) == es
  {
    var body := JoinWith(es, Separator);
    if rooted {
      ElementsConcat("", body);
      assert Render(es, rooted) == "" + [Separator] + body;
      ElementsEmpty();
      ElementsOfJoin(es);
    } else if |es| == 0 {
      ElementsDot();
    } else {
      ElementsOfJoin(es);
    }
  }

  /** Cleaning keeps the elements the scan keeps. */
  lemma PartsClean(p: string)
    ensures Parts(Clean(p)) == Parts(p)
  {
    CleanElements(p);
    PartsReduced(p);
    ReduceFixpoint(Parts(p), 0, Rooted(p));
    assert Parts(p)[..0] == [] && Parts(p)[0..] == Parts(p);
  }

  /** `filepath.Clean` is idempotent. */
  lemma CleanIdempotent(p: string)
    ensures Clean(Clean(p)) == Clean(p)
  {
    PartsClean(p);
  }

  /** `filepath.Join(dir, name)`: the non-empty arguments joined with the
      separator and cleaned; "" when both are empty. */
  function Join(dir: string, name: string): string {
    if dir != "" then Clean(dir + [Separator] + name)
    else if name != "" then Clean(name)
    else ""
  }

  /** Joining below a non-empty directory scans the name's elements onto
      the directory's cleaned elements. */
  lemma JoinParts(dir: string, name: string)
    requires dir != ""
    ensures var kept := Reduce(Parts(dir), Elements(name), Rooted(dir));
      && Join(dir, name) == Render(kept, Rooted(dir))
      && Parts(Join(dir, name)) == kept
  {
    var q := dir + [Separator] + name;
    ElementsConcat(dir, name);
    ReduceConcat([], Elements(dir), Elements(name), Rooted(dir));
    assert Rooted(q) == Rooted(dir);
    PartsClean(q);
  }

  /** A trailing separator changes nothing once the path is cleaned. */
  lemma CleanTrailing(d: string)
    requires d != ""
    ensures Clean(d + [Separator]) == Clean(d)
  {
    var t := d + [Separator];
    assert t == d + [Separator] + "";
    ElementsConcat(d, "");
    ElementsEmpty();
    assert Elements(t) == Elements(d);
    assert Rooted(t) == Rooted(d);
    assert Parts(t) == Parts(d);
  }

  /** The length of the longest common prefix of `a` and `b`. */
  function CommonPrefix(a: seq<string>, b: seq<string>): (n: nat)
    ensures n <= |a| && n <= |b| && a[..n] == b[..n]
    ensures n < |a| && n < |b| ==> a[n] != b[n]
  {
    if |a| > 0 && |b| > 0 && a[0] == b[0] then
      var n := CommonPrefix(a[1..], b[1..]);
      assert a[..n + 1] == [a[0]] + a[1..][..n];
      assert b[..n + 1] == [b[0]] + b[1..][..n];
      n + 1
    else 0
  }

  /** `n` steps up. */
  function Ups(n: nat): (us: seq<string>)
    ensures |us| == n && forall k :: 0 <= k < n ==> us[k] == Parent
  {
    seq(n, _ => Parent)
  }

  /** `filepath.Rel(basepath, targpath)`. Both paths are cleaned; equal
      paths give "."; a rooted and an unrooted path cannot be related.
      Otherwise, past the elements the cleaned paths share, every element
      left in the base becomes a "..", followed by the elements left in the
      target; a ".." as the first base element left fails, since there is
      no knowing what it stands for. A base of "." has no elements, but a
      target of "." keeps its ".", which ends up after the climb. */
  function Rel(basepath: string, targpath: string): (r: Option<string>)
    ensures Rooted(basepath) != Rooted(targpath) && Clean(basepath) != Clean(targpath) ==> r.None?
    ensures Clean(basepath) == Clean(targpath) ==> r == Some(".")
  {
    var base, targ := Clean(basepath), Clean(targpath);
    if base == targ then Some(".")
    else if Rooted(base) != Rooted(targ) then None
    else
      var bs, ts := Parts(basepath), Parts(targpath);
      var n := CommonPrefix(bs, ts);
      if n < |bs| && bs[n] == Parent then None
      else Some(JoinWith(Ups(|bs| - n) + ts[n..], Separator) + DotTail(targpath))
  }

  /** What `Rel` writes after the climb: "/." for a relative target that
      keeps no element, which is one that cleans to "." (`DotTailClean`);
      nothing otherwise. */
  function DotTail(targpath: string): string {
    if !Rooted(targpath) && Parts(targpath) == [] then [Separator] + "." else ""
  }

  lemma DotTailClean(targpath: string)
    ensures DotTail(targpath) != "" <==> Clean(targpath) == "."
  {
    CleanElements(targpath);
    ElementsDot();
  }

  /** Joining below a directory ignores what `Rel` writes after the climb. */
  lemma JoinTail(dir: string, rel: string, tail: string)
    requires rel != "" && (tail == "" || tail == [Separator] + ".")
    ensures Join(dir, rel + tail) == Join(dir, rel)
  {
    if tail != "" {
      JoinDotTail(dir, rel);
      assert rel + tail == rel + [Separator] + ".";
    } else {
      assert rel + tail == rel;
    }
  }

  /** A trailing "/." names nothing. */
  lemma ElementsDotTail(s: string)
    ensures Elements(s + [Separator] + ".") == Elements(s)
  {
    ElementsConcat(s, ".");
    ElementsDot();
  }

  /** Joining below a directory ignores a trailing "/." on a non-empty name. */
  lemma JoinDotTail(dir: string, name: string)
    requires name != ""
    ensures Join(dir, name + [Separator] + ".") == Join(dir, name)
  {
    var x := if dir != "" then dir + [Separator] + name else name;
    assert x + [Separator] + "." == (if dir != "" then dir + [Separator] + (name + [Separator] + ".") else name + [Separator] + ".");
    ElementsDotTail(x);
    assert Rooted(x + [Separator] + ".") == Rooted(x);
    CleanSame(x + [Separator] + ".", x);
  }

  /** The elements `Rel` spells out when the paths differ. */
  function Climb(basepath: string, targpath: string): seq<string> {
    var bs, ts := Parts(basepath), Parts(targpath);
    var n := CommonPrefix(bs, ts);
    Ups(|bs| - n) + ts[n..]
  }

  /** `Rel` can relate the two paths: they are of the same kind and the
      first base element past the shared ones is not "..". */
  predicate Relates(basepath: string, targpath: string) {
    var bs, ts := Parts(basepath), Parts(targpath);
    var n := CommonPrefix(bs, ts);
    && Rooted(basepath) == Rooted(targpath)
    && (n < |bs| ==> bs[n] != Parent)
  }

  /** Two paths with the same kept elements and the same rootedness clean
      to the same path. */
  lemma CleanSame(a: string, b: string)
    requires Parts(a) == Parts(b) && Rooted(a) == Rooted(b)
    ensures Clean(a) == Clean(b)
  {
  }

  /** Every step of a climb is an element. */
  lemma ClimbElements(basepath: string, targpath: string)
    ensures var steps := Climb(basepath, targpath);
      forall k :: 0 <= k < |steps| ==> IsElement(steps[k])
  {
    var bs, ts := Parts(basepath), Parts(targpath);
    PartsReduced(targpath);
    StepsElements(|bs| - CommonPrefix(bs, ts), ts, CommonPrefix(bs, ts));
  }

  /** Steps up followed by the tail of a list of elements are elements. */
  lemma StepsElements(ups: nat, ts: seq<string>, n: nat)
    requires n <= |ts| && forall k :: 0 <= k < |ts| ==> IsElement(ts[k])
    ensures forall k :: 0 <= k < |Ups(ups) + ts[n..]| ==> IsElement((Ups(ups) + ts[n..])[k])
  {
    AllElementsConcat(Ups(ups), ts[n..]);
  }

  /** Two lists of elements, one after the other, hold only elements. */
  lemma AllElementsConcat(a: seq<string>, b: seq<string>)
    requires forall k :: 0 <= k < |a| ==> IsElement(a[k])
    requires forall k :: 0 <= k < |b| ==> IsElement(b[k])
    ensures forall k :: 0 <= k < |a + b| ==> IsElement((a + b)[k])
  {
    forall k | 0 <= k < |a + b|
      ensures IsElement((a + b)[k])
    {
      if k >= |a| {
        assert (a + b)[k] == b[k - |a|];
      }
    }
  }

  /** Paths of the same kind that clean differently are a climb of at least
      one step apart. */
  lemma ClimbNonEmpty(basepath: string, targpath: string)
    requires Rooted(basepath) == Rooted(targpath) && Clean(basepath) != Clean(targpath)
    ensures |Climb(basepath, targpath)| > 0
  {
    var bs, ts := Parts(basepath), Parts(targpath);
    var n := CommonPrefix(bs, ts);
    if n == |bs| && n == |ts| {
      assert bs == bs[..n] == ts[..n] == ts;
      CleanSame(basepath, targpath);
    }
  }

  /** When the two paths differ and `Rel` succeeds, its result is the
      climb, which has at least one element, and possibly a trailing "/.". */
  lemma RelClimb(basepath: string, targpath: string)
    requires Rel(basepath, targpath).Some? && Clean(basepath) != Clean(targpath)
    ensures var steps := Climb(basepath, targpath);
      && |steps| > 0
      && (forall k :: 0 <= k < |steps| ==> IsElement(steps[k]))
      && Rel(basepath, targpath) == Some(JoinWith(steps, Separator) + DotTail(targpath))
  {
    ClimbElements(basepath, targpath);
    ClimbNonEmpty(basepath, targpath);
  }

  /** The result `Rel` gives for differing paths reads back as the climb. */
  lemma RelElements(basepath: string, targpath: string)
    requires Rel(basepath, targpath).Some? && Clean(basepath) != Clean(targpath)
    ensures Elements(Rel(basepath, targpath).value) == Climb(basepath, targpath)
    ensures JoinWith(Climb(basepath, targpath), Separator) != ""
  {
    RelClimb(basepath, targpath);
    ClimbSpelled(basepath, targpath);
  }

  /** The climb spelled out, with what follows it, reads back as the climb. */
  lemma ClimbSpelled(basepath: string, targpath: string)
    requires Rooted(basepath) == Rooted(targpath) && Clean(basepath) != Clean(targpath)
    ensures var rel := JoinWith(Climb(basepath, targpath), Separator);
      && Elements(rel + DotTail(targpath)) == Climb(basepath, targpath)
      && rel != ""
  {
    ClimbElements(basepath, targpath);
    ClimbNonEmpty(basepath, targpath);
    var steps := Climb(basepath, targpath);
    var rel := JoinWith(steps, Separator);
    ElementsOfJoin(steps);
    if DotTail(targpath) != "" {
      ElementsDotTail(rel);
      assert rel + DotTail(targpath) == rel + [Separator] + ".";
    } else {
      assert rel + DotTail(targpath) == rel;
    }
    assert rel != "" by {
      if rel == "" {
        ElementsEmpty();
      }
    }
  }

  /** `Rel` gives "." exactly for two paths that clean to the same path. */
  lemma RelDot(basepath: string, targpath: string)
    ensures Rel(basepath, targpath) == Some(".") <==> Clean(basepath) == Clean(targpath)
  {
    if Rel(basepath, targpath).Some? && Clean(basepath) != Clean(targpath) {
      RelElements(basepath, targpath);
      ClimbNonEmpty(basepath, targpath);
      ElementsDot();
    }
  }

  /** The round trip when both paths clean to the same one. */
  lemma RoundTripSame(basepath: string, targpath: string)
    requires Clean(basepath) == Clean(targpath)
    ensures Join(basepath, ".") == Clean(targpath)
  {
    ElementsDot();
    if basepath != "" {
      JoinParts(basepath, ".");
    } else {
      ElementsEmpty();
    }
  }

  /** The round trip when the paths differ: the ".."s climb out of the
      base's remaining elements and the target's remaining elements are
      appended. */
  lemma RoundTripClimb(basepath: string, targpath: string)
    requires Relates(basepath, targpath) && Clean(basepath) != Clean(targpath)
    ensures Join(basepath, JoinWith(Climb(basepath, targpath), Separator)) == Clean(targpath)
  {
    ClimbElements(basepath, targpath);
    ClimbNonEmpty(basepath, targpath);
    PartsReduced(basepath);
    PartsReduced(targpath);
    ElementsOfJoin(Climb(basepath, targpath));
    if basepath != "" {
      ClimbBelow(basepath, targpath);
    } else {
      ClimbFromEmpty(basepath, targpath);
    }
  }

  /** The round trip of a climb from a non-empty base. */
  lemma ClimbBelow(basepath: string, targpath: string)
    requires basepath != "" && Relates(basepath, targpath)
    requires Reduced(Parts(basepath), Rooted(basepath)) && Reduced(Parts(targpath), Rooted(basepath))
    requires Elements(JoinWith(Climb(basepath, targpath), Separator)) == Climb(basepath, targpath)
    ensures Join(basepath, JoinWith(Climb(basepath, targpath), Separator)) == Clean(targpath)
  {
    var steps := Climb(basepath, targpath);
    var rel := JoinWith(steps, Separator);
    JoinParts(basepath, rel);
    ClimbReduceParts(basepath, targpath);
    assert Reduce(Parts(basepath), Elements(rel), Rooted(basepath)) == Parts(targpath);
  }

  /** Scanning the climb onto the base's elements leaves the target's. */
  lemma ClimbReduceParts(basepath: string, targpath: string)
    requires Relates(basepath, targpath)
    requires Reduced(Parts(basepath), Rooted(basepath)) && Reduced(Parts(targpath), Rooted(basepath))
    ensures Reduce(Parts(basepath), Climb(basepath, targpath), Rooted(basepath)) == Parts(targpath)
  {
    ClimbReduceWith(Parts(basepath), Parts(targpath), Rooted(basepath), Climb(basepath, targpath));
  }

  /** `ClimbReduce` for a climb already spelled out as `steps`. */
  lemma ClimbReduceWith(bs: seq<string>, ts: seq<string>, rooted: bool, steps: seq<string>)
    requires Reduced(bs, rooted) && Reduced(ts, rooted)
    requires var n := CommonPrefix(bs, ts); n < |bs| ==> bs[n] != Parent
    requires steps == Ups(|bs| - CommonPrefix(bs, ts)) + ts[CommonPrefix(bs, ts)..]
    ensures Reduce(bs, steps, rooted) == ts
  {
    ClimbReduce(bs, ts, rooted);
  }

  /** The round trip of a climb from the empty base, which names nothing. */
  lemma ClimbFromEmpty(basepath: string, targpath: string)
    requires basepath == "" && Relates(basepath, targpath)
    requires Reduced(Parts(basepath), false) && Reduced(Parts(targpath), false)
    requires |Climb(basepath, targpath)| > 0
    requires forall k :: 0 <= k < |Climb(basepath, targpath)| ==> IsElement(Climb(basepath, targpath)[k])
    requires Elements(JoinWith(Climb(basepath, targpath), Separator)) == Climb(basepath, targpath)
    ensures Join(basepath, JoinWith(Climb(basepath, targpath), Separator)) == Clean(targpath)
  {
    ElementsEmpty();
    JoinHead(Climb(basepath, targpath));
    ClimbReduce(Parts(basepath), Parts(targpath), false);
  }

  /** Scanning the climb onto the base's elements gives the target's. */
  lemma ClimbReduce(bs: seq<string>, ts: seq<string>, rooted: bool)
    requires Reduced(bs, rooted) && Reduced(ts, rooted)
    requires var n := CommonPrefix(bs, ts); n < |bs| ==> bs[n] != Parent
    ensures var n := CommonPrefix(bs, ts); Reduce(bs, Ups(|bs| - n) + ts[n..], rooted) == ts
  {
    var n := CommonPrefix(bs, ts);
    ReduceConcat(bs, Ups(|bs| - n), ts[n..], rooted);
    ClimbOut(bs, n, rooted);
    ReduceFixpoint(ts, n, rooted);
  }

  /** `Rel` succeeds on differing paths only when it can relate them. */
  lemma RelRelates(basepath: string, targpath: string)
    requires Rel(basepath, targpath).Some? && Clean(basepath) != Clean(targpath)
    ensures Relates(basepath, targpath)
  {
  }

  /** Go's promise for `Rel`: joining the base with the result gives the
      cleaned target. */
  lemma RelRoundTrip(basepath: string, targpath: string)
    requires Rel(basepath, targpath).Some?
    ensures Join(basepath, Rel(basepath, targpath).value) == Clean(targpath)
  {
    if Clean(basepath) == Clean(targpath) {
      RoundTripSame(basepath, targpath);
    } else {
      RelClimb(basepath, targpath);
      RelRelates(basepath, targpath);
      RoundTripClimb(basepath, targpath);
      ClimbSpelled(basepath, targpath);
      JoinTail(basepath, JoinWith(Climb(basepath, targpath), Separator), DotTail(targpath));
    }
  }

  /** A base without ".." relates every path of its own kind: "." is the
      parent of every relative path and "/" of every rooted one. */
  lemma RelSucceeds(basepath: string, targpath: string)
    requires Rooted(basepath) == Rooted(targpath)
    requires forall k :: 0 <= k < |Parts(basepath)| ==> Parts(basepath)[k] != Parent
    ensures Rel(basepath, targpath).Some?
  {
  }

  /** Names without ".." joined below a non-empty root are appended to the
      root's kept elements. */
  lemma JoinNames(root: string, names: seq<string>)
    requires root != ""
    requires forall k :: 0 <= k < |names| ==> IsElement(names[k]) && names[k] != Parent
    ensures var p := Join(root, JoinWith(names, Separator));
      && Parts(p) == Parts(root) + names
      && Join(root, JoinWith(names, Separator)) == Render(Parts(root) + names, Rooted(root))
  {
    ElementsOfJoin(names);
    JoinParts(root, JoinWith(names, Separator));
    ReduceAppends(Parts(root), names, Rooted(root));
  }

  /** "." is the parent of every relative path. */
  lemma RelFromDot(targpath: string)
    requires !Rooted(targpath)
    ensures Rel(".", targpath).Some?
  {
    ElementsDot();
    RelSucceeds(".", targpath);
  }

  /** "/" is the parent of every rooted path. */
  lemma RelFromSlash(targpath: string)
    requires Rooted(targpath)
    ensures Rel([Separator], targpath).Some?
  {
    assert [Separator] == "" + [Separator] + "";
    ElementsConcat("", "");
    ElementsEmpty();
    RelSucceeds([Separator], targpath);
  }

  /** A list is the longest common prefix of itself and any extension. */
  lemma {:induction false} CommonPrefixExtends(a: seq<string>, b: seq<string>)
    ensures CommonPrefix(a, a + b) == |a|
    decreases |a|
  {
    if |a| > 0 {
      assert (a + b)[0] == a[0] && (a + b)[1..] == a[1..] + b;
      CommonPrefixExtends(a[1..], b);
    }
  }

  /** A path whose kept elements extend the base's by `names` is a climb of
      no ".." and just those names away from it, and `Rel` relates the two. */
  lemma ClimbAppend(basepath: string, targpath: string, names: seq<string>)
    requires |names| > 0
    requires Parts(targpath) == Parts(basepath) + names && Rooted(targpath) == Rooted(basepath)
    ensures Clean(basepath) != Clean(targpath)
    ensures Climb(basepath, targpath) == names
    ensures Rel(basepath, targpath).Some?
  {
    var bs := Parts(basepath);
    assert Clean(basepath) != Clean(targpath) by {
      PartsClean(basepath);
      PartsClean(targpath);
    }
    CommonPrefixExtends(bs, names);
    assert Ups(0) + (bs + names)[|bs|..] == names;
  }

  /** Names joined below a non-empty root are a climb of those names away
      from it. */
  lemma JoinClimb(root: string, names: seq<string>)
    requires root != "" && |names| > 0
    requires forall k :: 0 <= k < |names| ==> IsElement(names[k]) && names[k] != Parent
    ensures var p := Join(root, JoinWith(names, Separator));
      && Clean(root) != Clean(p)
      && Climb(root, p) == names
      && Rel(root, p).Some?
  {
    var p := Join(root, JoinWith(names, Separator));
    var bs := Parts(root);
    assert Parts(p) == bs + names && Rooted(p) == Rooted(root) by {
      JoinNames(root, names);
      PartsReduced(root);
      AllElementsConcat(bs, names);
      RenderRooted(bs + names, Rooted(root));
    }
    ClimbAppend(root, p, names);
  }

  /** Names joined below a non-empty root come back out of `Rel`. */
  lemma RelJoin(root: string, names: seq<string>)
    requires root != "" && |names| > 0
    requires forall k :: 0 <= k < |names| ==> IsElement(names[k]) && names[k] != Parent
    ensures Rel(root, Join(root, JoinWith(names, Separator))) == Some(JoinWith(names, Separator))
  {
    var p := Join(root, JoinWith(names, Separator));
    JoinClimb(root, names);
    assert DotTail(p) == "" by {
      JoinNames(root, names);
    }
    RelClimb(root, p);
    assert JoinWith(names, Separator) + "" == JoinWith(names, Separator);
  }

  /** A target that cleans to "." keeps its ".": from "a", Go's answer is
      "../.". */
  lemma RelToDot()
    ensures Rel("a", ".") == Some("../.")
  {
    assert Split("a", Separator) == ["a"];
    assert Named(["a"]) == ["a"] by {
      assert ["a"][1..] == [];
    }
    assert Parts("a") == ["a"];
    ElementsDot();
    assert Parts(".") == [];
    assert Clean("a") == "a" && Clean(".") == ".";
    var n := CommonPrefix(Parts("a"), Parts("."));
    assert n == 0 && Parts("a")[n] != Parent;
    assert Ups(1 - n) + Parts(".")[n..] == [Parent];
    assert JoinWith([Parent], Separator) == "..";
    assert DotTail(".") == "/.";
    assert Rel("a", ".") == Some(JoinWith(Ups(1 - n) + Parts(".")[n..], Separator) + DotTail("."));
    assert ".." + "/." == "../.";
  }

  /** `filepath.Dir(path)`: everything before the last separator, cleaned;
      "." when there is no separator. */
  function Dir(path: string): (d: string)
    ensures Separator !in path ==> d == "."
    ensures Separator in path ==> Rooted(d) == Rooted(path)
    ensures Clean(d) == d
  {
    if Separator !in path then
      assert Clean(".") == "." by {
        ElementsDot();
      }
      "."
    else
      var i := LastIndexOf(path, Separator);
      CleanIdempotent(path[..i + 1]);
      Clean(path[..i + 1])
  }

  /** The directory of a path whose last element is `name`. */
  lemma DirAppend(q: string, name: string)
    requires Separator !in name
    ensures Dir(q + [Separator] + name) == Clean(q + [Separator])
  {
    var p := q + [Separator] + name;
    assert p[|q| + 1..] == name;
    LastIndexOfAt(p, Separator, |q|);
    assert p[..|q| + 1] == q + [Separator];
  }

  /** The directory of an element right below the root is the root. */
  lemma DirRootChild(name: string)
    requires Separator !in name
    ensures Dir([Separator] + name) == [Separator]
  {
    assert [Separator] + name == "" + [Separator] + name;
    DirAppend("", name);
    assert "" + [Separator] == "" + [Separator] + "";
    ElementsConcat("", "");
    ElementsEmpty();
  }

  /** The directory of a name joined below a cleaned directory is that
      directory. */
  lemma DirJoin(dir: string, name: string)
    requires dir != "" && Clean(dir) == dir
    requires IsElement(name) && name != Parent
    ensures Dir(Join(dir, name)) == dir
  {
    var bs := Parts(dir);
    assert Join(dir, name) == Render(bs + [name], Rooted(dir)) by {
      JoinNames(dir, [name]);
      assert JoinWith([name], Separator) == name;
    }
    DirRender(dir, bs, name);
  }

  /** Spelling out one more name below a cleaned directory adds a separator
      and the name. */
  lemma RenderAppend(es: seq<string>, rooted: bool, name: string)
    requires |es| > 0
    ensures Render(es + [name], rooted) == Render(es, rooted) + [Separator] + name
  {
    JoinWithConcat(es, [name], Separator);
  }

  /** The directory of a cleaned directory's elements spelled out with one
      more name. */
  lemma DirRender(dir: string, bs: seq<string>, name: string)
    requires dir != "" && Clean(dir) == dir && bs == Parts(dir)
    requires IsElement(name)
    ensures Dir(Render(bs + [name], Rooted(dir))) == dir
  {
    var rooted := Rooted(dir);
    assert dir == Render(bs, rooted);
    if |bs| == 0 {
      assert bs + [name] == [name];
      if rooted {
        DirRootChild(name);
      }
    } else {
      RenderAppend(bs, rooted, name);
      DirBelow(dir, name);
    }
  }

  /** The directory of a name right below a cleaned directory. */
  lemma DirBelow(dir: string, name: string)
    requires dir != "" && Clean(dir) == dir && Separator !in name
    ensures Dir(dir + [Separator] + name) == dir
  {
    DirAppend(dir, name);
    CleanTrailing(dir);
  }

  /** `path.Ext(p)`: the suffix from the last `.` of the final path element,
      or "" when that element has no `.`. */
  function Ext(p: string): (e: string)
    ensures e == "" || (|e| <= |p| && p[|p| - |e|..] == e && e[0] == '.' && '.' !in e[1..] && Separator !in e)
    decreases |p|
  {
    if |p| == 0 then ""
    else
      var c := p[|p| - 1];
      if c == Separator then ""
      else if c == '.' then "."
      else
        var e := Ext(p[..|p| - 1]);
        if e == "" then "" else e + [c]
  }

  /** A name ending in `.` followed by dot- and slash-free text has exactly
      that suffix as its extension. */
  lemma {:induction false} ExtOfSuffix(stem: string, suffix: string)
    requires '.' !in suffix && Separator !in suffix
    ensures Ext(stem + "." + suffix) == "." + suffix
    decreases |suffix|
  {
    var p := stem + "." + suffix;
    if |suffix| == 0 {
      ExtAtDot(p);
    } else {
      var shorter, c := suffix[..|suffix| - 1], suffix[|suffix| - 1];
      assert suffix == shorter + [c];
      assert p[|p| - 1] == c;
      assert p[..|p| - 1] == stem + "." + shorter;
      ExtOfSuffix(stem, shorter);
      ExtGrows(p);
      assert "." + shorter + [c] == "." + suffix;
    }
  }

  /** A name ending in "." has "." as its extension. */
  lemma ExtAtDot(p: string)
    requires |p| > 0 && p[|p| - 1] == '.'
    ensures Ext(p) == "."
  {
  }

  /** A last character other than "." and the separator extends a
      non-empty extension. */
  lemma ExtGrows(p: string)
    requires |p| > 0 && p[|p| - 1] != '.' && p[|p| - 1] != Separator
    requires Ext(p[..|p| - 1]) != ""
    ensures Ext(p) == Ext(p[..|p| - 1]) + [p[|p| - 1]]
  {
  }

  /** A name with no `.` in its last element has no extension. */
  lemma {:induction false} ExtNoDot(p: string)
    requires '.' !in p
    ensures Ext(p) == ""
    decreases |p|
  {
    if |p| > 0 {
      ExtNoDot(p[..|p| - 1]);
    }
  }
}
