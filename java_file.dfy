/** `java.io.File` as the cache code uses it: a path string is normalised on
    construction (runs of '/' collapse, a trailing '/' goes), and `getName` /
    `getParent` split it at the last separator. Unix separator only. */
module JavaFile {
  import opened Wrappers

  const Separator: char := '/'

  /** No two separators in a row. */
  ghost predicate NoDoubleSeparator(s: string) {
    forall i :: 0 <= i < |s| - 1 ==> !(s[i] == Separator && s[i + 1] == Separator)
  }

  /** What `new File(p).getPath()` holds: no doubled separator and no trailing
      one, except for the root "/" itself. */
  ghost predicate IsNormal(s: string) {
    NoDoubleSeparator(s) && (|s| > 1 ==> s[|s| - 1] != Separator)
  }

  /** Every run of separators replaced by a single one. */
  function Collapse(p: string): (r: string)
    ensures NoDoubleSeparator(r)
    ensures |r| <= |p|
    ensures |p| > 0 ==> |r| > 0 && r[0] == p[0] && r[|r| - 1] == p[|p| - 1]
    ensures NoDoubleSeparator(p) ==> r == p
    decreases |p|
  {
    if |p| < 2 then p
    else if p[0] == Separator && p[1] == Separator then Collapse(p[1..])
    else [p[0]] + Collapse(p[1..])
  }

  ghost predicate HasNoSeparator(s: string) {
    forall k :: 0 <= k < |s| ==> s[k] != Separator
  }

  /** Collapsing does not see the difference between "//" and "/". */
  lemma {:induction false} CollapseDropsDoubledSeparator(a: string, b: string)
    ensures Collapse(a + "//" + b) == Collapse(a + "/" + b)
    decreases |a|
  {
    var p, q := a + "//" + b, a + "/" + b;
    if a == [] {
      assert p[1..] == q;
    } else {
      assert p[0] == q[0] && p[1] == q[1];
      assert p[1..] == a[1..] + "//" + b;
      assert q[1..] == a[1..] + "/" + b;
      CollapseDropsDoubledSeparator(a[1..], b);
    }
  }

  /** A final component without separators is kept as it is. */
  lemma {:induction false} CollapseAppendName(x: string, n: string)
    requires x != [] && n != [] && HasNoSeparator(n)
    ensures Collapse(x + n) == Collapse(x) + n
    decreases |x|
  {
    var p := x + n;
    if |x| == 1 {
      assert p[1..] == n;
      assert p[1] == n[0] != Separator;
      assert NoDoubleSeparator(n);
      assert Collapse(p) == [p[0]] + Collapse(n);
    } else {
      assert p[0] == x[0] && p[1] == x[1];
      assert p[1..] == x[1..] + n;
      CollapseAppendName(x[1..], n);
      if x[0] == Separator && x[1] == Separator {
        assert Collapse(p) == Collapse(x[1..] + n);
      } else {
        assert Collapse(p) == [p[0]] + Collapse(x[1..] + n);
      }
    }
  }

  /** One separator after a path that does not end in one is kept. */
  lemma {:induction false} CollapseAppendSeparator(p: string)
    requires p != [] && p[|p| - 1] != Separator
    ensures Collapse(p + "/") == Collapse(p) + "/"
    decreases |p|
  {
    var q := p + "/";
    if |p| == 1 {
      assert q[1..] == "/";
    } else {
      assert q[0] == p[0] && q[1] == p[1];
      assert q[1..] == p[1..] + "/";
      CollapseAppendSeparator(p[1..]);
    }
  }

  /** `UnixFileSystem.normalize`. */
  function Normalize(p: string): (r: string)
    ensures IsNormal(r)
    ensures IsNormal(p) ==> r == p
  {
    var c := Collapse(p);
    if |c| > 1 && c[|c| - 1] == Separator then c[..|c| - 1] else c
  }

  /** Normalising twice changes nothing more. */
  lemma NormalizeIdempotent(p: string)
    ensures Normalize(Normalize(p)) == Normalize(p)
  {
  }

  /** `new File("a//b")` and `new File("a/b")` are the same path. */
  lemma NormalizeDropsDoubledSeparator(a: string, b: string)
    ensures Normalize(a + "//" + b) == Normalize(a + "/" + b)
  {
    CollapseDropsDoubledSeparator(a, b);
  }

  /** A trailing separator is dropped, except from the root "/" itself. */
  lemma NormalizeDropsTrailingSeparator(p: string)
    requires p != ""
    ensures Normalize(p + "/") == Normalize(p)
  {
    if p[|p| - 1] == Separator {
      var a := p[..|p| - 1];
      assert p + "/" == a + "//" + "";
      assert p == a + "/" + "";
      CollapseDropsDoubledSeparator(a, "");
    } else {
      CollapseAppendSeparator(p);
    }
  }

  /** Index of the last separator, or -1 (`String.lastIndexOf`). */
  function LastSeparator(s: string): (r: int)
    ensures -1 <= r < |s|
    ensures r >= 0 ==> s[r] == Separator
    ensures forall k :: r < k < |s| ==> s[k] != Separator
    decreases |s|
  {
    if |s| == 0 then -1
    else if s[|s| - 1] == Separator then |s| - 1
    else LastSeparator(s[..|s| - 1])
  }

  /** 1 for an absolute path, 0 otherwise (`UnixFileSystem.prefixLength`). */
  function PrefixLength(s: string): nat {
    if |s| > 0 && s[0] == Separator then 1 else 0
  }

  /** `new File(p).getName()`: the last component, which holds no separator. */
  function Name(p: string): (r: string)
    ensures HasNoSeparator(r)
  {
    var s := Normalize(p);
    var i := LastSeparator(s);
    var pl := PrefixLength(s);
    if i < pl then
      assert i == -1 || i == 0;
      assert forall k :: pl <= k < |s| ==> s[k] != Separator;
      s[pl..]
    else
      assert forall k :: i + 1 <= k < |s| ==> s[k] != Separator;
      s[i + 1..]
  }

  /** `new File(p).getParent()`, `None` standing for Java's null: there is no
      parent exactly when the normalised path has no separator or is "/",
      and a parent is never the empty string. */
  function Parent(p: string): (r: Option<string>)
    ensures r.None? <==> HasNoSeparator(Normalize(p)) || Normalize(p) == "/"
    ensures r.Some? ==> r.value != ""
  {
    var s := Normalize(p);
    var i := LastSeparator(s);
    var pl := PrefixLength(s);
    if i < pl then (if pl > 0 && |s| > pl then Some(s[..pl]) else None)
    else Some(s[..i])
  }

  /** Parent and name put back together give the normalised path. */
  lemma ParentAndNameRebuildPath(p: string)
    ensures Parent(p).Some? && Parent(p).value == "/" ==> Normalize(p) == "/" + Name(p)
    ensures Parent(p).Some? && Parent(p).value != "/" ==> Normalize(p) == Parent(p).value + "/" + Name(p)
    ensures Parent(p).None? ==> Normalize(p) == Name(p) || (Normalize(p) == "/" && Name(p) == "")
  {
    var s := Normalize(p);
    var i := LastSeparator(s);
    var pl := PrefixLength(s);
    if i < pl {
      if pl > 0 && |s| > pl {
        assert s == s[..1] + s[1..];
      }
    } else {
      assert s == s[..i] + [s[i]] + s[i + 1..];
    }
  }

  /** Doubled separators change neither the name nor the parent. */
  lemma RedundantSeparatorIgnored(a: string, b: string)
    ensures Name(a + "//" + b) == Name(a + "/" + b)
    ensures Parent(a + "//" + b) == Parent(a + "/" + b)
  {
    NormalizeDropsDoubledSeparator(a, b);
  }

  lemma LastSeparatorOfChild(w: string, n: string)
    requires |w| > 0 && w[|w| - 1] == Separator && HasNoSeparator(n)
    ensures LastSeparator(w + n) == |w| - 1
  {
    var p := w + n;
    assert p[|w| - 1] == Separator;
    forall k | |w| <= k < |p| ensures p[k] != Separator {
      assert p[k] == n[k - |w|];
    }
  }

  /** "dir/name" below a normal directory other than "/" splits into the
      directory and the name. */
  lemma SplitChild(dir: string, name: string)
    requires IsNormal(dir) && dir != "" && dir[|dir| - 1] != Separator
    requires name != "" && HasNoSeparator(name)
    ensures IsNormal(dir + "/" + name)
    ensures Name(dir + "/" + name) == name
    ensures Parent(dir + "/" + name) == Some(dir)
  {
    var p := dir + "/" + name;
    forall i | 0 <= i < |p| - 1
      ensures !(p[i] == Separator && p[i + 1] == Separator)
    {
      if i < |dir| - 1 {
        assert p[i] == dir[i] && p[i + 1] == dir[i + 1];
      } else if i == |dir| - 1 {
        assert p[i] == dir[|dir| - 1];
      } else {
        assert p[i + 1] == name[i + 1 - |dir| - 1];
      }
    }
    assert p[|p| - 1] == name[|name| - 1];
    assert Normalize(p) == p;
    assert p == (dir + "/") + name;
    LastSeparatorOfChild(dir + "/", name);
    assert p[..|dir|] == dir;
    assert p[|dir| + 1..] == name;
  }

  /** A single component is its own name. */
  lemma SimpleName(n: string)
    requires n != "" && HasNoSeparator(n)
    ensures IsNormal(n) && n[|n| - 1] != Separator
    ensures Name(n) == n
  {
    assert Normalize(n) == n;
    assert LastSeparator(n) == -1;
  }

  /** In a normal "w" + name, with `w` ending in the separator, the name is
      the last component. */
  lemma NameOfChild(w: string, n: string)
    requires |w| > 0 && w[|w| - 1] == Separator && n != "" && HasNoSeparator(n)
    requires IsNormal(w + n)
    ensures Name(w + n) == n
  {
    var c := w + n;
    LastSeparatorOfChild(w, n);
    assert Normalize(c) == c;
    if |w| - 1 < PrefixLength(c) {
      assert c[1..] == n;
    } else {
      assert c[|w|..] == n;
    }
  }

  /** Whatever comes before it, a path built as "t/n" ends in `n` and has the
      name `n`. */
  lemma NameOfNormalizedChild(t: string, n: string)
    requires n != "" && HasNoSeparator(n)
    ensures |Normalize(t + "/" + n)| > |n|
    ensures Normalize(t + "/" + n)[|Normalize(t + "/" + n)| - |n|..] == n
    ensures Name(Normalize(t + "/" + n)) == n
  {
    var x := t + "/";
    assert t + "/" + n == x + n;
    CollapseAppendName(x, n);
    var w := Collapse(x);
    var c := w + n;
    assert c[|c| - 1] == n[|n| - 1];
    assert Normalize(x + n) == c;
    assert c[|c| - |n|..] == n;
    NameOfChild(w, n);
  }

  /** Collapsing "t/" gives the normalised `t` followed by one separator,
      except when `t` normalises to the root "/" itself. */
  lemma CollapseWithSeparator(t: string)
    requires t != ""
    ensures Normalize(t) == "/" ==> Collapse(t + "/") == "/"
    ensures Normalize(t) != "/" ==> Normalize(t) != "" && Collapse(t + "/") == Normalize(t) + "/"
  {
    if t[|t| - 1] == Separator {
      var a := t[..|t| - 1];
      assert t + "/" == a + "//" + "";
      assert t == a + "/" + "";
      CollapseDropsDoubledSeparator(a, "");
    } else {
      CollapseAppendSeparator(t);
    }
  }

  /** In a normal "w" + name, with `w` ending in the separator, the parent is
      `w` without that separator, or "/" when `w` is the root. */
  lemma ParentOfChild(w: string, n: string)
    requires |w| > 0 && w[|w| - 1] == Separator && n != "" && HasNoSeparator(n)
    requires IsNormal(w + n)
    ensures Parent(w + n) == Some(if w == "/" then "/" else w[..|w| - 1])
  {
    var c := w + n;
    LastSeparatorOfChild(w, n);
    assert Normalize(c) == c;
    assert c[..|w| - 1] == w[..|w| - 1];
    if |w| == 1 {
      assert c[..1] == w;
    }
  }

  /** The parent of a normalised "t/n" is the normalised `t`. */
  lemma ParentOfNormalizedChild(t: string, n: string)
    requires t != "" && n != "" && HasNoSeparator(n)
    ensures Parent(Normalize(t + "/" + n)) == Some(Normalize(t))
  {
    var x := t + "/";
    assert t + "/" + n == x + n;
    CollapseAppendName(x, n);
    CollapseWithSeparator(t);
    var w := Collapse(x);
    var c := w + n;
    assert c[|c| - 1] == n[|n| - 1];
    assert Normalize(x + n) == c;
    ParentOfChild(w, n);
  }
}
