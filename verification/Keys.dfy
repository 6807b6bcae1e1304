/** Datastore keys: rooted slash-separated paths. */
module Keys {
  import opened Orders
  import opened Seqs
  import opened Wrappers

  type Key = string

  /** A path component that cleaning leaves alone. */
  predicate IsComponent(c: string) {
    c != "" && '/' !in c && c != "." && c != ".."
  }

  predicate Components(cs: seq<string>) {
    forall i :: 0 <= i < |cs| ==> IsComponent(cs[i])
  }

  /** Each component after a slash. */
  function Slashed(cs: seq<string>): (s: string) {
    if cs == [] then "" else "/" + cs[0] + Slashed(cs[1..])
  }

  /** The canonical key with the given components. */
  function Render(cs: seq<string>): (k: Key) {
    if cs == [] then "/" else Slashed(cs)
  }

  ghost predicate Canonical(k: Key) {
    exists cs :: Components(cs) && k == Render(cs)
  }

  /** What is relied on of `path_clean::clean`: on rooted paths the result is canonical, and a canonical path is kept. */
  ghost predicate CleanContract(pathClean: string -> string) {
    forall p: string :: p != "" && p[0] == '/' ==>
      Canonical(pathClean(p)) && (Canonical(p) ==> pathClean(p) == p)
  }

  function Clean(pathClean: string -> string, s: string): (k: Key) {
    if s == "" then "/"
    else if s[0] == '/' then pathClean(s)
    else pathClean("/" + s)
  }

  function New(pathClean: string -> string, s: string): (k: Key) {
    Clean(pathClean, s)
  }

  /** `None` is the panic on a malformed key. */
  function NewUnchecked(s: string): (k: Option<Key>) {
    if s == "" then Some("/")
    else if s[0] != '/' || (|s| > 1 && s[|s| - 1] == '/') then None
    else Some(s)
  }

  predicate IsRoot(k: Key) {
    k == "/"
  }

  /** `str::split('/')`. */
  function SplitSlash(s: string): (cs: seq<string>)
    ensures cs != []
  {
    if s == "" then [""]
    else
      var rest := SplitSlash(s[1..]);
      if s[0] == '/' then [""] + rest else [[s[0]] + rest[0]] + rest[1..]
  }

  function List(k: Key): (cs: seq<string>) {
    if IsRoot(k) then [] else SplitSlash(k)[1..]
  }

  /** `join("/")`. */
  function JoinSlash(cs: seq<string>): (s: string) {
    if cs == [] then "" else if |cs| == 1 then cs[0] else cs[0] + "/" + JoinSlash(cs[1..])
  }

  function Reversed(cs: seq<string>): (r: seq<string>)
    ensures |r| == |cs|
  {
    if cs == [] then [] else Reversed(cs[1..]) + [cs[0]]
  }

  function Reverse(pathClean: string -> string, k: Key): (r: Key) {
    New(pathClean, JoinSlash(Reversed(List(k))))
  }

  function Parent(pathClean: string -> string, k: Key): (p: Key) {
    var list := List(k);
    if list == [] || |list| == 1 then New(pathClean, "/")
    else New(pathClean, JoinSlash(list[..|list| - 1]))
  }

  /** `None` when `new_unchecked` panics. */
  function Child(pathClean: string -> string, k: Key, child: Key): (c: Option<Key>) {
    if IsRoot(k) then Some(New(pathClean, child))
    else if IsRoot(child) then Some(k)
    else NewUnchecked(k + child)
  }

  predicate IsAncestorOf(k: Key, descendant: Key) {
    if |descendant| <= |k| then false
    else if IsRoot(k) then true
    else k <= descendant && descendant[|k|] == '/'
  }

  /** `Ord for Key`: lists of components, each compared as a string. */
  predicate KeyLeq(a: Key, b: Key) {
    LexLeq(Lex(CharLeq), List(a), List(b))
  }

  // ---- strings and component lists ----------------------------------------------------------

  lemma {:induction false} SplitComponent(c: string, rest: string)
    requires '/' !in c
    ensures SplitSlash(c + rest) == [c + SplitSlash(rest)[0]] + SplitSlash(rest)[1..]
  {
    if c == "" {
      assert c + rest == rest && c + SplitSlash(rest)[0] == SplitSlash(rest)[0];
    } else {
      SplitComponent(c[1..], rest);
      assert (c + rest)[1..] == c[1..] + rest;
      assert [c[0]] + (c[1..] + SplitSlash(rest)[0]) == c + SplitSlash(rest)[0];
    }
  }

  lemma SplitLeading(tail: string)
    ensures SplitSlash("/" + tail) == [""] + SplitSlash(tail)
  {
    assert ("/" + tail)[1..] == tail;
  }

  lemma {:induction false} SplitSlashed(cs: seq<string>)
    requires Components(cs)
    ensures SplitSlash(Slashed(cs)) == [""] + cs
  {
    hide SplitSlash;
    if cs == [] {
      SplitNothing();
    } else {
      var rest := Slashed(cs[1..]);
      SplitSlashed(cs[1..]);
      SplitComponent(cs[0], rest);
      assert SplitSlash(cs[0] + rest) == [cs[0]] + cs[1..] == cs by { assert cs[0] + "" == cs[0]; }
      ConcatAssoc("/", cs[0], rest);
      SplitLeading(cs[0] + rest);
    }
  }

  lemma SplitNothing()
    ensures SplitSlash("") == [""]
  {
  }

  /** The component list of a canonical key is the one it was rendered from. */
  lemma ListRender(cs: seq<string>)
    requires Components(cs)
    ensures List(Render(cs)) == cs
  {
    if cs != [] {
      SplitSlashed(cs);
      assert |cs[0]| >= 1;
    }
  }

  lemma RenderList(k: Key)
    requires Canonical(k)
    ensures Components(List(k)) && Render(List(k)) == k
  {
    var cs :| Components(cs) && k == Render(cs);
    ListRender(cs);
  }

  lemma {:induction false} SlashedJoin(cs: seq<string>)
    requires cs != []
    ensures "/" + JoinSlash(cs) == Slashed(cs)
  {
    if |cs| == 1 {
      assert cs[1..] == [] && Slashed(cs) == "/" + cs[0] + "";
    } else {
      SlashedJoin(cs[1..]);
      ConcatAssoc("/" + cs[0], "/", JoinSlash(cs[1..]));
      ConcatAssoc("/", cs[0] + "/", JoinSlash(cs[1..]));
    }
  }

  lemma {:induction false} SlashedConcat(a: seq<string>, b: seq<string>)
    ensures Slashed(a + b) == Slashed(a) + Slashed(b)
  {
    if a == [] {
      assert a + b == b;
    } else {
      SlashedConcat(a[1..], b);
      assert (a + b)[1..] == a[1..] + b;
      ConcatAssoc("/" + a[0], Slashed(a[1..]), Slashed(b));
    }
  }

  /** A new key from joined components is the canonical key of those components. */
  lemma NewJoined(pathClean: string -> string, cs: seq<string>)
    requires CleanContract(pathClean) && Components(cs)
    ensures New(pathClean, JoinSlash(cs)) == Render(cs)
  {
    if cs != [] {
      SlashedJoin(cs);
      var s := JoinSlash(cs);
      assert s != "" && s[0] != '/' by {
        assert cs[0][0] in cs[0];
        if |cs| > 1 { assert s[0] == cs[0][0]; }
      }
      assert Canonical("/" + s);
    }
  }

  lemma NewCanonical(pathClean: string -> string, s: string)
    requires CleanContract(pathClean)
    ensures Canonical(New(pathClean, s))
    ensures Canonical(s) ==> New(pathClean, s) == s
  {
    assert Render([]) == "/";
    if Canonical(s) {
      var cs :| Components(cs) && s == Render(cs);
      assert s != "" && s[0] == '/';
    }
  }

  // ---- key algebra --------------------------------------------------------------------------

  /** `child` never panics and concatenates the components. */
  lemma ChildConcat(pathClean: string -> string, k: Key, child: Key)
    requires CleanContract(pathClean) && Canonical(k) && Canonical(child)
    ensures Child(pathClean, k, child) == Some(Render(List(k) + List(child)))
    ensures Canonical(Render(List(k) + List(child)))
  {
    var a, b := List(k), List(child);
    RenderList(k);
    RenderList(child);
    assert Components(a + b);
    if IsRoot(k) {
      NewCanonical(pathClean, child);
      assert a + b == b;
    } else if IsRoot(child) {
      assert a + b == a;
    } else {
      SlashedConcat(a, b);
      LastNotSlash(a + b);
    }
  }

  lemma {:induction false} LastNotSlash(cs: seq<string>)
    requires Components(cs) && cs != []
    ensures |Slashed(cs)| > 1 && Slashed(cs)[0] == '/' && Slashed(cs)[|Slashed(cs)| - 1] != '/'
  {
    if |cs| == 1 {
      assert Slashed(cs) == "/" + cs[0] + "";
      assert cs[0][|cs[0]| - 1] in cs[0];
    } else {
      LastNotSlash(cs[1..]);
    }
  }

  /** Reversing twice gives the key back. */
  lemma ReverseInvolution(pathClean: string -> string, k: Key)
    requires CleanContract(pathClean) && Canonical(k)
    ensures Reverse(pathClean, Reverse(pathClean, k)) == k
    ensures List(Reverse(pathClean, k)) == Reversed(List(k))
  {
    RenderList(k);
    var cs := List(k);
    ReversedComponents(cs);
    NewJoined(pathClean, Reversed(cs));
    ListRender(Reversed(cs));
    ReversedTwice(cs);
    NewJoined(pathClean, cs);
  }

  lemma {:induction false} ReversedComponents(cs: seq<string>)
    requires Components(cs)
    ensures Components(Reversed(cs))
  {
    if cs != [] { ReversedComponents(cs[1..]); }
  }

  lemma {:induction false} ReversedSnoc(cs: seq<string>, c: string)
    ensures Reversed(cs + [c]) == [c] + Reversed(cs)
  {
    if cs == [] {
      assert cs + [c] == [c] && [c][1..] == [];
    } else {
      ReversedSnoc(cs[1..], c);
      assert (cs + [c])[1..] == cs[1..] + [c];
    }
  }

  lemma {:induction false} ReversedTwice(cs: seq<string>)
    ensures Reversed(Reversed(cs)) == cs
  {
    if cs != [] {
      ReversedSnoc(Reversed(cs[1..]), cs[0]);
      ReversedTwice(cs[1..]);
      assert cs == [cs[0]] + cs[1..];
    }
  }

  /** The parent drops the last component. */
  lemma ParentDrops(pathClean: string -> string, cs: seq<string>, c: string)
    requires CleanContract(pathClean) && Components(cs) && IsComponent(c)
    ensures Parent(pathClean, Render(cs + [c])) == Render(cs)
  {
    hide List, Render, New, CleanContract;
    ListRender(cs + [c]);
    assert (cs + [c])[..|cs|] == cs;
    NewJoined(pathClean, cs);
    NewRoot(pathClean);
  }

  lemma NewRoot(pathClean: string -> string)
    requires CleanContract(pathClean)
    ensures New(pathClean, "/") == Render([])
  {
    assert Render([]) == "/";
    NewCanonical(pathClean, "/");
  }

  /** So it undoes a child of one component. */
  lemma ParentOfChild(pathClean: string -> string, k: Key, c: string)
    requires CleanContract(pathClean) && Canonical(k) && IsComponent(c)
    ensures Child(pathClean, k, Render([c])).Some?
    ensures Parent(pathClean, Child(pathClean, k, Render([c])).value) == k
  {
    hide List, Render, Parent, Child, CleanContract;
    RenderList(k);
    assert Components([c]);
    assert Canonical(Render([c]));
    ChildConcat(pathClean, k, Render([c]));
    ListRender([c]);
    ParentDrops(pathClean, List(k), c);
  }

  /** The string test for ancestry is exactly a proper prefix of component lists. */
  lemma AncestorIffPrefix(k: Key, d: Key)
    requires Canonical(k) && Canonical(d)
    ensures IsAncestorOf(k, d) <==> List(k) < List(d)
  {
    RenderList(k);
    RenderList(d);
    var a, b := List(k), List(d);
    if a == [] {
      if b != [] { LastNotSlash(b); }
    } else if b == [] {
      LastNotSlash(a);
    } else {
      SlashedPrefix(a, b);
    }
  }

  /** `s` followed by a slash is the start of `t`. */
  predicate StartsWithSlashed(s: string, t: string) {
    |s| < |t| && s <= t && t[|s|] == '/'
  }

  lemma {:induction false} SlashedPrefix(a: seq<string>, b: seq<string>)
    requires Components(a) && Components(b)
    ensures a < b <==> StartsWithSlashed(Slashed(a), Slashed(b))
  {
    if a == [] {
      if b != [] { LastNotSlash(b); }
    } else if b != [] {
      var s, t := Slashed(a[1..]), Slashed(b[1..]);
      SlashedPrefix(a[1..], b[1..]);
      assert a == [a[0]] + a[1..] && b == [b[0]] + b[1..];
      if StartsWithSlashed(Slashed(a), Slashed(b)) {
        FirstSlash(a[0], s, b[0], t);
      }
      if a[0] == b[0] {
        SameHead("/" + a[0], s, t);
      }
    } else {
      assert !(a < b);
      assert Slashed(b) == "";
    }
  }

  lemma SameHead(head: string, s: string, t: string)
    ensures StartsWithSlashed(head + s, head + t) <==> StartsWithSlashed(s, t)
  {
    if StartsWithSlashed(head + s, head + t) {
      assert forall i :: 0 <= i < |s| ==> s[i] == (head + s)[|head| + i] == (head + t)[|head| + i] == t[i];
    }
  }

  /** Slash-free components that meet a slash next are equal. */
  lemma FirstSlash(a: string, s: string, b: string, t: string)
    requires '/' !in a && '/' !in b
    requires s == "" || s[0] == '/'
    requires t == "" || t[0] == '/'
    requires StartsWithSlashed("/" + a + s, "/" + b + t)
    ensures a == b
  {
    var x, y := "/" + a + s, "/" + b + t;
    assert y[1 + |a|] == '/';
    assert forall i :: 0 <= i < |a| ==> x[1 + i] == a[i] && a[i] != '/';
    assert forall i :: 0 <= i < |b| ==> y[1 + i] == b[i] && b[i] != '/';
    assert forall i :: 0 <= i < |t| ==> y[1 + |b| + i] == t[i];
    assert |a| == |b|;
    assert forall i :: 0 <= i < |a| ==> a[i] == x[1 + i] == y[1 + i] == b[i];
  }

  // ---- order --------------------------------------------------------------------------------

  /** On canonical keys the order is total, agrees with equality, and puts ancestors first. */
  lemma KeyOrder(a: Key, b: Key, c: Key)
    requires Canonical(a) && Canonical(b) && Canonical(c)
    ensures KeyLeq(a, a)
    ensures KeyLeq(a, b) || KeyLeq(b, a)
    ensures KeyLeq(a, b) && KeyLeq(b, a) ==> a == b
    ensures KeyLeq(a, b) && KeyLeq(b, c) ==> KeyLeq(a, c)
    ensures IsAncestorOf(a, b) ==> KeyLeq(a, b) && a != b
  {
    CharTotal();
    LexTotal(CharLeq);
    LexTotal(Lex(CharLeq));
    var r := Lex(Lex(CharLeq));
    assert forall x, y :: r(x, y) == LexLeq(Lex(CharLeq), x, y);
    RenderList(a);
    RenderList(b);
    AncestorIffPrefix(a, b);
    if IsAncestorOf(a, b) {
      LexPrefix(Lex(CharLeq), List(a), List(b));
    }
  }

  /** Keys that differ first in one component are ordered as those components are, byte-wise ascending. */
  lemma KeyOrderAt(a: Key, b: Key, k: nat)
    requires FirstDiffer(List(a), List(b), k)
    ensures KeyLeq(a, b) <==> Before(CharLess, List(a)[k], List(b)[k])
  {
    hide List;
    var x, y := List(a), List(b);
    LexAt(Lex(CharLeq), x, y, k);
    CharBefore(x[k], y[k]);
  }

  // ---- a cleaning that meets the contract ---------------------------------------------------

  /** Empty and `.` components vanish, `..` drops the one before. */
  function Resolve(stack: seq<string>, cs: seq<string>): (r: seq<string>)
    decreases |cs|
  {
    if cs == [] then stack
    else if cs[0] == "" || cs[0] == "." then Resolve(stack, cs[1..])
    else if cs[0] == ".." then Resolve(if stack == [] then [] else stack[..|stack| - 1], cs[1..])
    else Resolve(stack + [cs[0]], cs[1..])
  }

  function LexicalClean(p: string): (k: Key) {
    Render(Resolve([], SplitSlash(p)))
  }

  lemma {:induction false} SplitNoSlash(s: string)
    ensures forall i :: 0 <= i < |SplitSlash(s)| ==> '/' !in SplitSlash(s)[i]
  {
    if s != "" { SplitNoSlash(s[1..]); }
  }

  lemma {:induction false} ResolveComponents(stack: seq<string>, cs: seq<string>)
    requires Components(stack) && forall i :: 0 <= i < |cs| ==> '/' !in cs[i]
    ensures Components(Resolve(stack, cs))
    decreases |cs|
  {
    if cs != [] {
      var next :=
        if cs[0] == "" || cs[0] == "." then stack
        else if cs[0] == ".." then (if stack == [] then [] else stack[..|stack| - 1])
        else stack + [cs[0]];
      ResolveComponents(next, cs[1..]);
    }
  }

  lemma {:induction false} ResolveKeeps(stack: seq<string>, cs: seq<string>)
    requires Components(cs)
    ensures Resolve(stack, cs) == stack + cs
    decreases |cs|
  {
    if cs == [] {
      assert stack + cs == stack;
    } else {
      assert IsComponent(cs[0]);
      ResolveKeeps(stack + [cs[0]], cs[1..]);
      assert stack + [cs[0]] + cs[1..] == stack + cs;
    }
  }

  /** Lexical path cleaning meets the contract asked of `path_clean::clean`. */
  lemma LexicalCleanMeetsContract()
    ensures CleanContract(LexicalClean)
  {
    forall p: string | p != "" && p[0] == '/'
      ensures Canonical(LexicalClean(p))
      ensures Canonical(p) ==> LexicalClean(p) == p
    {
      SplitNoSlash(p);
      ResolveComponents([], SplitSlash(p));
      if Canonical(p) {
        RenderList(p);
        var cs := List(p);
        if cs == [] {
          assert SplitSlash("/") == ["", ""];
          assert Resolve([], ["", ""]) == Resolve([], [""]) == Resolve([], []);
        } else {
          SplitSlashed(cs);
          assert ([""] + cs)[1..] == cs;
          ResolveKeeps([], cs);
          assert [] + cs == cs;
        }
      }
    }
  }
}
