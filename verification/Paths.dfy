// The path of a proxied request (internal/transport/http/reverseproxy/proxy.go):
// what the traversal guard lets through, and where it is sent.

module Paths {

  // ------------------------------------------------------- slash-separated paths

  /** The elements between slashes; there is always at least one. */
  function Split(p: string): (els: seq<string>)
    ensures |els| >= 1
  {
    if p == "" then [""]
    else if p[0] == '/' then [""] + Split(p[1..])
    else
      var rest := Split(p[1..]);
      [[p[0]] + rest[0]] + rest[1..]
  }

  function Join(els: seq<string>): string {
    if els == [] then "" else if |els| == 1 then els[0] else els[0] + "/" + Join(els[1..])
  }

  predicate Slashless(els: seq<string>) {
    forall i :: 0 <= i < |els| ==> '/' !in els[i]
  }

  lemma {:induction false} SplitIsSlashless(p: string)
    ensures Slashless(Split(p))
  {
    if p != "" {
      SplitIsSlashless(p[1..]);
    }
  }

  lemma {:induction false} SplitAtSlash(a: string, b: string)
    ensures Split(a + "/" + b) == Split(a) + Split(b)
  {
    var whole := a + "/" + b;
    if a == "" {
      assert whole[1..] == b;
    } else {
      assert whole[1..] == a[1..] + "/" + b;
      SplitAtSlash(a[1..], b);
    }
  }

  lemma {:induction false} JoinOfSplit(p: string)
    ensures Join(Split(p)) == p
  {
    if p != "" {
      JoinOfSplit(p[1..]);
      var rest := Split(p[1..]);
      if p[0] == '/' {
        assert Split(p)[1..] == rest;
      } else {
        assert Split(p)[1..] == rest[1..];
      }
    }
  }

  lemma {:induction false} SplitOfSlashless(e: string)
    requires '/' !in e
    ensures Split(e) == [e]
  {
    if e != "" {
      assert e[0] in e && forall i :: 1 <= i < |e| ==> e[i] in e;
      SplitOfSlashless(e[1..]);
      assert e == [e[0]] + e[1..];
    }
  }

  lemma {:induction false} SplitOfJoin(els: seq<string>)
    requires els != [] && Slashless(els)
    ensures Split(Join(els)) == els
  {
    SplitOfSlashless(els[0]);
    if |els| > 1 {
      SplitOfJoin(els[1..]);
      SplitAtSlash(els[0], Join(els[1..]));
    }
  }

  // ------------------------------------------------------------------ path.Clean

  predicate Rooted(p: string) {
    p != "" && p[0] == '/'
  }

  /** An element that stays where it is. */
  predicate Plain(e: string) {
    e != "" && e != "." && e != ".." && '/' !in e
  }

  predicate AllPlain(els: seq<string>) {
    forall i :: 0 <= i < |els| ==> Plain(els[i])
  }

  /** One element more: nothing and "." vanish, ".." takes back the one before. */
  function Push(out: seq<string>, e: string, rooted: bool): seq<string> {
    if e == "" || e == "." then out
    else if e == ".." then
      if out != [] && out[|out| - 1] != ".." then out[..|out| - 1]
      else if rooted then out
      else out + [e]
    else out + [e]
  }

  function Reduce(els: seq<string>, rooted: bool): seq<string> {
    if els == [] then [] else Push(Reduce(els[..|els| - 1], rooted), els[|els| - 1], rooted)
  }

  /** path.Clean of the Go standard library. */
  function Clean(p: string): string {
    var out := Reduce(Split(p), Rooted(p));
    if Rooted(p) then "/" + Join(out) else if out == [] then "." else Join(out)
  }

  lemma {:induction false} ReducePlain(a: seq<string>, b: seq<string>, rooted: bool)
    requires AllPlain(b)
    ensures Reduce(a + b, rooted) == Reduce(a, rooted) + b
  {
    if b == [] {
      assert a + b == a;
    } else {
      var n := |b| - 1;
      assert (a + b)[..|a + b| - 1] == a + b[..n];
      ReducePlain(a, b[..n], rooted);
      assert b == b[..n] + [b[n]];
    }
  }

  lemma {:induction false} RootedReducesToPlain(els: seq<string>)
    requires Slashless(els)
    ensures AllPlain(Reduce(els, true))
  {
    if els != [] {
      RootedReducesToPlain(els[..|els| - 1]);
    }
  }

  lemma SplitRooted(p: string)
    requires Rooted(p)
    ensures Split(p) == [""] + Split(p[1..]) && "/" + p[1..] == p
  {
  }

  lemma ReduceEmptyFirst(els: seq<string>)
    requires AllPlain(els)
    ensures Reduce([""] + els, true) == els
  {
    ReducePlain([""], els, true);
    assert Reduce([""], true) == [] by {
      assert [""][..0] == [];
    }
  }

  /** A rooted path is clean exactly when it is "/" or all its elements are plain. */
  lemma CleanIff(p: string)
    requires Rooted(p)
    ensures Clean(p) == p <==> p == "/" || AllPlain(Split(p[1..]))
  {
    hide Push, Plain;
    SplitRooted(p);
    SplitIsSlashless(p);
    var els, out := Split(p[1..]), Reduce(Split(p), true);
    RootedReducesToPlain(Split(p));
    JoinOfSplit(p[1..]);
    if AllPlain(els) {
      ReduceEmptyFirst(els);
    } else if Clean(p) == p {
      assert p[1..] == Join(out);
      if out != [] {
        PlainIsSlashless(out);
        SplitOfJoin(out);
      }
    } else if p == "/" {
      RootIsClean();
    }
  }

  lemma {:induction false} ReduceFrom(a: seq<string>, b: seq<string>, more: seq<string>, rooted: bool)
    requires Reduce(a, rooted) == Reduce(b, rooted)
    ensures Reduce(a + more, rooted) == Reduce(b + more, rooted)
  {
    if more == [] {
      assert a + more == a && b + more == b;
    } else {
      var n := |more| - 1;
      assert (a + more)[..|a + more| - 1] == a + more[..n] && (b + more)[..|b + more| - 1] == b + more[..n];
      ReduceFrom(a, b, more[..n], rooted);
    }
  }

  lemma ReduceOne(a: seq<string>, e: string, rooted: bool)
    ensures Reduce(a + [e], rooted) == Push(Reduce(a, rooted), e, rooted)
  {
    assert (a + [e])[..|a + [e]| - 1] == a;
  }

  /** The rooted path with these elements. */
  function PathOf(els: seq<string>): string {
    "/" + Join(els)
  }

  lemma CleanOfElements(els: seq<string>)
    requires Slashless(els)
    ensures Clean(PathOf(els)) == "/" + Join(Reduce([""] + els, true))
  {
    var p := PathOf(els);
    SplitRooted(p);
    assert p[1..] == Join(els);
    if els == [] {
      assert Split("") == [""];
      ReduceOne([""], "", true);
      assert [""] + [""] == Split(p) && [""] + els == [""];
    } else {
      SplitOfJoin(els);
    }
  }

  /** Cleaning a rooted path drops empty elements and dots; ".." takes back the plain
      element before it, or nothing at the root. */
  lemma CleanDrops(a: seq<string>, e: string, b: seq<string>)
    requires Slashless(a) && Slashless(b) && Plain(e)
    ensures Clean(PathOf(a + [""] + b)) == Clean(PathOf(a + b))
    ensures Clean(PathOf(a + ["."] + b)) == Clean(PathOf(a + b))
    ensures Clean(PathOf(a + [e, ".."] + b)) == Clean(PathOf(a + b))
    ensures Clean(PathOf([".."] + b)) == Clean(PathOf(b))
  {
    hide Clean, PathOf, Reduce;
    CleanOfElements(a + b);
    CleanOfElements(b);
    SameReduction(a, [""], b);
    SameReduction(a, ["."], b);
    SameReduction([], [".."], b);
    assert [] + [".."] + b == [".."] + b && [] + b == b;
    ReduceOne([""] + a + [e], "..", true);
    ReduceOne([""] + a, e, true);
    assert [""] + a + [e] + [".."] == [""] + a + [e, ".."];
    ReduceFrom([""] + a + [e, ".."], [""] + a, b, true);
    assert [""] + a + [e, ".."] + b == [""] + (a + [e, ".."] + b) && [""] + a + b == [""] + (a + b);
    CleanOfElements(a + [e, ".."] + b);
  }

  lemma SameReduction(a: seq<string>, d: seq<string>, b: seq<string>)
    requires Slashless(a) && Slashless(b) && (d == [""] || d == ["."] || (d == [".."] && a == []))
    ensures Clean(PathOf(a + d + b)) == Clean(PathOf(a + b))
  {
    hide Clean, PathOf, Reduce;
    AddsNothing(a, d);
    ReduceFrom([""] + a + d, [""] + a, b, true);
    assert [""] + a + d + b == [""] + (a + d + b) && [""] + a + b == [""] + (a + b);
    CleanOfElements(a + d + b);
    CleanOfElements(a + b);
  }

  lemma AddsNothing(a: seq<string>, d: seq<string>)
    requires d == [""] || d == ["."] || (d == [".."] && a == [])
    ensures Reduce([""] + a + d, true) == Reduce([""] + a, true)
  {
    hide Reduce;
    ReduceOne([""] + a, d[0], true);
    assert [""] + a + [d[0]] == [""] + a + d;
    if a == [] {
      assert [""] + a == [""];
      ReduceEmptyFirst([]);
      assert [""] + [] == [""];
    }
  }

  lemma PlainIsSlashless(els: seq<string>)
    requires AllPlain(els)
    ensures Slashless(els)
  {
  }

  lemma RootIsClean()
    ensures Clean("/") == "/"
  {
    assert Split("/") == ["", ""];
    assert ["", ""][..1] == [""] && [""][..0] == [];
  }

  /** Cleaning a rooted path gives a clean rooted path. */
  lemma CleanTwice(p: string)
    requires Rooted(p)
    ensures Rooted(Clean(p)) && Clean(Clean(p)) == Clean(p)
  {
    hide Push, Plain, Reduce;
    var out := Reduce(Split(p), true);
    SplitIsSlashless(p);
    RootedReducesToPlain(Split(p));
    PlainIsSlashless(out);
    var c := Clean(p);
    assert c[1..] == Join(out);
    CleanIff(c);
    if out != [] {
      SplitOfJoin(out);
    }
  }

  // ----------------------------------------------------------------- the guard

  predicate HasDots(p: string) {
    exists i :: 0 <= i <= |p| && ".." <= p[i..]
  }

  /** RejectTraversal lets the request through. */
  predicate Passes(p: string) {
    Clean(p) == p && !HasDots(p)
  }

  /** The mount point of an engine: everything below "/name/". */
  predicate Mounted(name: string, p: string) {
    "/" + name + "/" <= p
  }

  /** Engine names match ^[a-z0-9][a-z0-9-]{0,31}$. */
  predicate EngineName(name: string) {
    1 <= |name| <= 32 && forall i :: 0 <= i < |name| ==> 'a' <= name[i] <= 'z' || '0' <= name[i] <= '9' || (i > 0 && name[i] == '-')
  }

  // -------------------------------------------------------------- the rewriting

  function TrimRightSlashes(s: string): string {
    if s != "" && s[|s| - 1] == '/' then TrimRightSlashes(s[..|s| - 1]) else s
  }

  function TrimPrefix(s: string, prefix: string): string {
    if prefix <= s then s[|prefix|..] else s
  }

  function WithSlash(p: string): string {
    if Rooted(p) then p else "/" + p
  }

  /** singleJoin. */
  function SingleJoin(a: string, b: string): string {
    Clean(TrimRightSlashes(a) + WithSlash(b))
  }

  /** The path of the outgoing request. */
  function Outbound(base: string, prefix: string, p: string): string {
    SingleJoin(base, WithSlash(TrimPrefix(p, prefix)))
  }

  /** The base path in clean form, without a slash at its end. */
  function Root(base: string): string {
    if base == "" || Clean(base) == "/" then "" else Clean(base)
  }

  /** What follows the engine's name, with its slash. */
  function Remainder(name: string, p: string): string
    requires Mounted(name, p)
  {
    p[|name| + 1..]
  }

  lemma {:induction false} TrimmedElements(s: string)
    ensures Reduce(Split(TrimRightSlashes(s)), true) == Reduce(Split(s), true)
    ensures TrimRightSlashes(s) <= s
    ensures s != "" && s[0] == '/' && TrimRightSlashes(s) == "" ==> Reduce(Split(s), true) == []
  {
    if s != "" && s[|s| - 1] == '/' {
      var t := s[..|s| - 1];
      TrimmedElements(t);
      assert s == t + "/" + "";
      SplitAtSlash(t, "");
      assert Split(s)[..|Split(s)| - 1] == Split(t);
    }
    assert Split("") == [""] && [""][..0] == [];
    assert Reduce(Split(""), true) == [];
  }

  /** The elements that a mounted request leaves behind the engine's name. */
  lemma RemainderIsPlain(name: string, p: string)
    requires EngineName(name) && Mounted(name, p) && Clean(p) == p
    ensures Rooted(Remainder(name, p)) && AllPlain(Split(Remainder(name, p)[1..]))
    ensures TrimPrefix(p, "/" + name) == Remainder(name, p)
  {
    hide Clean, Plain;
    var rest := p[|name| + 2..];
    assert p == "/" + name + "/" + rest;
    assert p[1..] == name + "/" + rest;
    CleanIff(p);
    SplitAtSlash(name, rest);
    var els := Split(p[1..]);
    assert forall i :: 0 <= i < |Split(rest)| ==> Split(rest)[i] == els[|Split(name)| + i];
  }

  /** Elements of the base, then elements of the remainder: cleaning the joined
      path changes nothing behind the base. */
  lemma CleanOfJoined(a: string, rest: string)
    requires (a == "" || Rooted(a)) && AllPlain(Split(rest))
    ensures Clean(a + "/" + rest) == "/" + Join(Reduce(Split(a), true) + Split(rest))
  {
    hide Push, Plain;
    SplitAtSlash(a, rest);
    ReducePlain(Split(a), Split(rest), true);
    assert Rooted(a + "/" + rest);
  }

  lemma {:induction false} JoinAppend(a: seq<string>, b: seq<string>)
    requires a != [] && b != []
    ensures Join(a + b) == Join(a) + "/" + Join(b)
  {
    if |a| == 1 {
      assert (a + b)[1..] == b;
    } else {
      assert (a + b)[1..] == a[1..] + b;
      JoinAppend(a[1..], b);
    }
  }

  lemma RootThenRest(base: string, rest: string)
    requires base == "" || Rooted(base)
    ensures "/" + Join(Reduce(Split(base), true) + Split(rest)) == Root(base) + "/" + rest
  {
    hide Push, Plain, Reduce, Split, AllPlain;
    var els := Reduce(Split(base), true);
    JoinOfSplit(rest);
    EmptyBase();
    SplitIsSlashless(base);
    RootedReducesToPlain(Split(base));
    JoinNonEmpty(els);
    if els == [] {
      assert els + Split(rest) == Split(rest);
    } else {
      JoinAppend(els, Split(rest));
    }
  }

  /** For every base path of a URL with a host and every mounted request that
      passes the guard, the outgoing path is the clean base followed by the
      unchanged remainder. */
  lemma RewriteIsExact(base: string, name: string, p: string)
    requires (base == "" || Rooted(base)) && EngineName(name) && Mounted(name, p) && Passes(p)
    ensures Outbound(base, "/" + name, p) == Root(base) + Remainder(name, p)
  {
    hide Push, Plain, EngineName, Reduce, Split, HasDots, Root, Join, Clean, AllPlain;
    RemainderIsPlain(name, p);
    var rem := Remainder(name, p);
    var a := TrimRightSlashes(base);
    TrimmedElements(base);
    assert a + rem == a + "/" + rem[1..];
    CleanOfJoined(a, rem[1..]);
    RootThenRest(base, rem[1..]);
    assert Root(base) + rem == Root(base) + "/" + rem[1..];
  }

  lemma EmptyBase()
    ensures Reduce(Split(""), true) == []
  {
    assert [""][..0] == [];
  }

  lemma {:induction false} JoinNonEmpty(els: seq<string>)
    requires AllPlain(els)
    ensures Join(els) == "" <==> els == []
  {
  }

  /** So cleaning is the identity there, and the base stays an element-wise
      prefix: no accepted request leaves it. */
  lemma OutboundStaysBelowBase(base: string, name: string, p: string)
    requires (base == "" || Rooted(base)) && EngineName(name) && Mounted(name, p) && Passes(p)
    ensures var o := Outbound(base, "/" + name, p);
            && Rooted(o) && Clean(o) == o
            && Split(Root(base)) <= Split(o) && AllPlain(Split(o)[|Split(Root(base))|..])
  {
    hide Push, Plain, EngineName, Reduce, HasDots;
    RewriteIsExact(base, name, p);
    RemainderIsPlain(name, p);
    var rem := Remainder(name, p);
    SplitAtSlash(Root(base), rem[1..]);
    assert Root(base) + rem == Root(base) + "/" + rem[1..];
    var joined := TrimRightSlashes(base) + rem;
    TrimmedElements(base);
    assert Rooted(joined);
    CleanTwice(joined);
  }

  /** Different requests go to different places. */
  lemma RewriteIsInjective(base: string, name: string, p: string, q: string)
    requires (base == "" || Rooted(base)) && EngineName(name)
    requires Mounted(name, p) && Passes(p) && Mounted(name, q) && Passes(q)
    requires Outbound(base, "/" + name, p) == Outbound(base, "/" + name, q)
    ensures p == q
  {
    hide Outbound, Passes, Root, EngineName;
    RewriteIsExact(base, name, p);
    RewriteIsExact(base, name, q);
    var n := |name| + 1;
    assert p[..n] == ("/" + name + "/")[..n] && q[..n] == ("/" + name + "/")[..n];
    assert p == p[..n] + p[n..] && q == q[..n] + q[n..];
    var root := Root(base);
    var o := root + Remainder(name, p);
    assert o[|root|..] == Remainder(name, p);
    assert (root + Remainder(name, q))[|root|..] == Remainder(name, q);
  }

  /** The guard's test for ".." adds nothing against traversal: a clean rooted path
      has no ".." element. It only refuses names that contain two dots. */
  lemma PassesIff(p: string)
    requires Rooted(p)
    ensures Passes(p) <==> (p == "/" || AllPlain(Split(p[1..]))) && !HasDots(p)
  {
    hide Clean, HasDots, AllPlain;
    CleanIff(p);
  }
}
