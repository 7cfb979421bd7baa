/** Util::ValidPath: a request path must not climb above the document root. */
module PathCheck {
  import opened Text

  /** The path's components: Split at "/", which drops empty ones. */
  function Components(path: string): seq<string> {
    NonEmpty(Pieces(path, "/", 0))
  }

  /** The depth never goes below zero, counting every component but ".." as one level down. */
  function LevelsOk(cs: seq<string>, level: nat): bool
    decreases |cs|
  {
    if |cs| == 0 then true
    else if cs[0] == ".." then level > 0 && LevelsOk(cs[1..], level - 1)
    else LevelsOk(cs[1..], level + 1)
  }

  method ValidPath(path: string) returns (ok: bool)
    ensures ok == LevelsOk(Components(path), 0)
  {
    var subdir, size := Split(path, "/", []);
    assert subdir == Components(path);
    assert subdir[0..] == subdir;
    var level := 0;
    for i := 0 to |subdir|
      invariant level >= 0
      invariant LevelsOk(subdir[i..], level) == LevelsOk(subdir, 0)
    {
      assert subdir[i..][1..] == subdir[i + 1..];
      if subdir[i] == ".." {
        level := level - 1;
        if level < 0 {
          return false;
        }
        continue;
      }
      level := level + 1;
    }
    ok := true;
  }

  /** Walking the directory tree: ".." leaves the current directory, "." stays, a name enters. */
  function Walk(cs: seq<string>, stack: seq<string>): Option<seq<string>>
    decreases |cs|
  {
    if |cs| == 0 then Some(stack)
    else if cs[0] == ".." then (if |stack| == 0 then None else Walk(cs[1..], stack[..|stack| - 1]))
    else if cs[0] == "." then Walk(cs[1..], stack)
    else Walk(cs[1..], stack + [cs[0]])
  }

  /** The walk from the root never leaves it. */
  predicate StaysInside(cs: seq<string>) {
    Walk(cs, []).Some?
  }

  /** Without "." components the check is exactly that walk. */
  lemma {:induction false} LevelsAreDepth(cs: seq<string>, stack: seq<string>)
    requires "." !in cs
    ensures LevelsOk(cs, |stack|) == Walk(cs, stack).Some?
    decreases |cs|
  {
    if |cs| > 0 {
      assert cs[0] != ".";
      if cs[0] == ".." {
        if |stack| > 0 {
          LevelsAreDepth(cs[1..], stack[..|stack| - 1]);
        }
      } else {
        LevelsAreDepth(cs[1..], stack + [cs[0]]);
      }
    }
  }

  /** No walk that stays inside is refused. */
  lemma {:induction false} InsideIsAccepted(cs: seq<string>, stack: seq<string>, level: nat)
    requires Walk(cs, stack).Some? && |stack| <= level
    ensures LevelsOk(cs, level)
    decreases |cs|
  {
    if |cs| > 0 {
      if cs[0] == ".." {
        InsideIsAccepted(cs[1..], stack[..|stack| - 1], level - 1);
      } else if cs[0] == "." {
        InsideIsAccepted(cs[1..], stack, level + 1);
      } else {
        InsideIsAccepted(cs[1..], stack + [cs[0]], level + 1);
      }
    }
  }

  lemma DottedJoin(ps: seq<string>)
    requires ps == ["", ".", ".."]
    ensures Join(ps, "/") == "/./.." && NonEmpty(ps) == [".", ".."]
  {
    assert ps == [""] + [".", ".."] && [".", ".."] == ["."] + [".."];
    JoinCons("", [".", ".."], "/");
    JoinCons(".", [".."], "/");
    NonEmptyCons("", [".", ".."]);
    NonEmptyCons(".", [".."]);
    NonEmptyCons("..", []);
  }

  /** With "." components it may accept a path that leaves the root. */
  lemma DotDeceives()
    ensures Components("/./..") == [".", ".."]
    ensures LevelsOk(Components("/./.."), 0) && !StaysInside(Components("/./.."))
  {
    var ps := ["", ".", ".."];
    DottedJoin(ps);
    PiecesJoin("", ps, '/');
    assert "" + Join(ps, "/") == "/./..";
    assert [".", ".."][1..] == [".."];
  }

  function EndLevel(cs: seq<string>, level: nat): nat
    requires LevelsOk(cs, level)
    decreases |cs|
  {
    if |cs| == 0 then level
    else if cs[0] == ".." then EndLevel(cs[1..], level - 1)
    else EndLevel(cs[1..], level + 1)
  }

  lemma {:induction false} LevelsConcat(cs: seq<string>, q: seq<string>, level: nat)
    ensures LevelsOk(cs + q, level) <==> LevelsOk(cs, level) && LevelsOk(q, EndLevel(cs, level))
    decreases |cs|
  {
    if |cs| == 0 {
      assert cs + q == q;
    } else {
      assert (cs + q)[1..] == cs[1..] + q;
      if cs[0] != ".." {
        LevelsConcat(cs[1..], q, level + 1);
      } else if level > 0 {
        LevelsConcat(cs[1..], q, level - 1);
      }
    }
  }

  lemma {:induction false} WalkConcat(cs: seq<string>, q: seq<string>, stack: seq<string>)
    ensures Walk(cs + q, stack) == if Walk(cs, stack).None? then None else Walk(q, Walk(cs, stack).value)
    decreases |cs|
  {
    if |cs| == 0 {
      assert cs + q == q;
    } else {
      assert (cs + q)[1..] == cs[1..] + q;
      if cs[0] == ".." {
        if |stack| > 0 {
          WalkConcat(cs[1..], q, stack[..|stack| - 1]);
        }
      } else if cs[0] == "." {
        WalkConcat(cs[1..], q, stack);
      } else {
        WalkConcat(cs[1..], q, stack + [cs[0]]);
      }
    }
  }

  /** Every "." makes the counted level one deeper than the real depth. */
  lemma {:induction false} DotsWiden(cs: seq<string>, stack: seq<string>, level: nat)
    requires Walk(cs, stack).Some? && |stack| <= level && LevelsOk(cs, level)
    ensures EndLevel(cs, level) >= |Walk(cs, stack).value| + (level - |stack|)
    ensures "." in cs ==> EndLevel(cs, level) > |Walk(cs, stack).value| + (level - |stack|)
    decreases |cs|
  {
    if |cs| > 0 {
      var rest := cs[1..];
      assert "." in cs <==> cs[0] == "." || "." in rest;
      if cs[0] == ".." {
        DotsWiden(rest, stack[..|stack| - 1], level - 1);
      } else if cs[0] == "." {
        DotsWiden(rest, stack, level + 1);
      } else {
        DotsWiden(rest, stack + [cs[0]], level + 1);
      }
    }
  }

  function Ups(n: nat): (q: seq<string>)
    ensures |q| == n && "." !in q
  {
    if n == 0 then [] else [".."] + Ups(n - 1)
  }

  lemma {:induction false} UpsNeedDepth(n: nat, stack: seq<string>, level: nat)
    ensures Walk(Ups(n), stack).Some? <==> n <= |stack|
    ensures LevelsOk(Ups(n), level) <==> n <= level
    decreases n
  {
    if n > 0 {
      assert Ups(n)[1..] == Ups(n - 1);
      UpsNeedDepth(n - 1, if |stack| > 0 then stack[..|stack| - 1] else [], if level > 0 then level - 1 else 0);
    }
  }

  function Names(n: nat): (p: seq<string>)
    ensures |p| == n && "." !in p
  {
    if n == 0 then [] else ["d"] + Names(n - 1)
  }

  lemma {:induction false} NamesEnter(n: nat, stack: seq<string>)
    ensures Walk(Names(n), stack).Some? && |Walk(Names(n), stack).value| == n + |stack|
    decreases n
  {
    if n > 0 {
      assert Names(n)[1..] == Names(n - 1);
      NamesEnter(n - 1, stack + ["d"]);
    }
  }

  /** Nothing leaves the root from deep enough below it. */
  lemma {:induction false} DeepEnough(cs: seq<string>, stack: seq<string>)
    requires |cs| <= |stack|
    ensures Walk(cs, stack).Some?
    decreases |cs|
  {
    if |cs| > 0 {
      if cs[0] == ".." {
        DeepEnough(cs[1..], stack[..|stack| - 1]);
      } else if cs[0] == "." {
        DeepEnough(cs[1..], stack);
      } else {
        DeepEnough(cs[1..], stack + [cs[0]]);
      }
    }
  }

  /** A path with a "." that stays inside can be continued to one that leaves the root and is accepted. */
  lemma DotLeaves(cs: seq<string>) returns (q: seq<string>)
    requires "." in cs && StaysInside(cs)
    ensures "." !in q && LevelsOk(cs + q, 0) && !StaysInside(cs + q)
  {
    var stack := Walk(cs, []).value;
    q := Ups(|stack| + 1);
    InsideIsAccepted(cs, [], 0);
    LevelsConcat(cs, q, 0);
    WalkConcat(cs, q, []);
    DotsWiden(cs, [], 0);
    UpsNeedDepth(|q|, stack, EndLevel(cs, 0));
  }

  ghost predicate Agrees(cs: seq<string>) {
    LevelsOk(cs, 0) <==> StaysInside(cs)
  }

  /**
   Exactly when the check can be relied on: with these components, wherever they stand in a path
   that has no other ".", it agrees with the walk if and only if there is no "." among them.
   */
  lemma ReliableExactly(cs: seq<string>)
    ensures (forall p, q :: "." !in p && "." !in q ==> Agrees(p + cs + q)) <==> "." !in cs
  {
    if "." in cs {
      var p := Names(|cs|);
      NamesEnter(|p|, []);
      DeepEnough(cs, Walk(p, []).value);
      WalkConcat(p, cs, []);
      var q := DotLeaves(p + cs);
      assert !Agrees(p + cs + q);
    } else {
      forall p, q | "." !in p && "." !in q ensures Agrees(p + cs + q) {
        LevelsAreDepth(p + cs + q, []);
      }
    }
  }
}
