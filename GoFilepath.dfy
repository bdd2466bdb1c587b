/**
 * The functions of Go's `path/filepath` package that name the output
 * directory and the page files, for a system whose separator is '/'.
 */
module GoFilepath {

  const Separator: char := '/'

  /** The path without its trailing separators. */
  function TrimTrailingSeparators(p: string): (t: string)
    ensures t <= p
    ensures t == [] || t[|t| - 1] != Separator
    ensures forall i :: |t| <= i < |p| ==> p[i] == Separator
  {
    if p != [] && p[|p| - 1] == Separator then TrimTrailingSeparators(p[..|p| - 1]) else p
  }

  /** What follows the last separator (all of `p` when it has none). */
  function LastElement(p: string): (e: string)
    ensures Separator !in e
    ensures |e| <= |p| && e == p[|p| - |e|..]
    ensures |e| == |p| || p[|p| - |e| - 1] == Separator
  {
    if p == [] || p[|p| - 1] == Separator then []
    else
      var q := p[..|p| - 1];
      var e := LastElement(q);
      assert p == q + [p[|p| - 1]];
      assert p[|p| - |e| - 1..] == q[|q| - |e|..] + [p[|p| - 1]];
      e + [p[|p| - 1]]
  }

  /**
   * filepath.Base: the last element of the path once trailing separators are
   * dropped; "." for the empty path and "/" for a path made of separators only.
   */
  function Base(p: string): (b: string)
    ensures b != []
    ensures b == [Separator] || Separator !in b
    ensures p == [] ==> b == "."
    ensures p != [] && TrimTrailingSeparators(p) == [] ==> b == [Separator]
    ensures TrimTrailingSeparators(p) != [] ==> b == LastElement(TrimTrailingSeparators(p))
    ensures p != [] && Separator !in p ==> b == p
  {
    if p == [] then "."
    else
      var t := TrimTrailingSeparators(p);
      var e := LastElement(t);
      assert Separator !in p ==> t == p && e == p by {
        if Separator !in p {
          assert p[|p| - 1] in p;
        }
      }
      if e == [] then [Separator] else e
  }

  /**
   * filepath.Ext: the suffix of the last element of `p` from its last '.' on,
   * or "" when the last element has no '.'. So the extension is a suffix of
   * `p` that starts with '.' and holds no other '.' and no separator, and it
   * is empty only when the last element of `p` has no '.'.
   */
  function Ext(p: string): (e: string)
    ensures |e| <= |p| && p[..|p| - |e|] + e == p
    ensures e != [] ==> e[0] == '.' && forall i :: 1 <= i < |e| ==> e[i] != '.' && e[i] != Separator
    ensures e == [] ==> '.' !in LastElement(p)
  {
    if p == [] || p[|p| - 1] == Separator then []
    else if p[|p| - 1] == '.' then ['.']
    else
      var q, last := p[..|p| - 1], p[|p| - 1];
      var e := Ext(q);
      assert p == q + [last];
      ExtStep(q, last, e);
      if e == [] then [] else e + [last]
  }

  /** The final extension of q, extended by one character that is neither '.' nor a separator. */
  lemma ExtStep(q: string, last: char, e: string)
    requires last != '.' && last != Separator
    requires |e| <= |q| && q[..|q| - |e|] + e == q
    requires e != [] ==> e[0] == '.' && forall i :: 1 <= i < |e| ==> e[i] != '.' && e[i] != Separator
    requires e == [] ==> '.' !in LastElement(q)
    ensures e == [] ==> '.' !in LastElement(q + [last])
    ensures e != [] ==> var p, r := q + [last], e + [last];
      && p[..|p| - |r|] + r == p
      && r[0] == '.' && forall i :: 1 <= i < |r| ==> r[i] != '.' && r[i] != Separator
  {
    if e == [] {
      LastElementStep(q, last);
    } else {
      var p, r := q + [last], e + [last];
      assert p[..|p| - |r|] == q[..|q| - |e|];
      assert forall i :: 1 <= i < |r| ==> r[i] == if i < |e| then e[i] else last;
    }
  }

  /** One more character that is not a separator extends the last element by it. */
  lemma LastElementStep(q: string, last: char)
    requires last != Separator
    ensures LastElement(q + [last]) == LastElement(q) + [last]
  {
    var p := q + [last];
    assert p[..|p| - 1] == q;
  }

  /** A path without a '.' has no extension. */
  lemma NoDotNoExt(p: string)
    ensures '.' !in p ==> Ext(p) == []
  {
    var e := Ext(p);
    var k := |p| - |e|;
    if e != [] {
      assert p[k] == e[0] == '.';
      assert p[k] in p;
    }
  }

  /** Appending a character that is neither '.' nor a separator extends a non-empty extension by it. */
  lemma ExtAppend(q: string, last: char)
    requires last != '.' && last != Separator && Ext(q) != []
    ensures Ext(q + [last]) == Ext(q) + [last]
  {
    assert (q + [last])[..|q|] == q;
  }

  /** Appending after a concatenation appends to its second part. */
  lemma Snoc(a: string, b: string, c: char)
    ensures (a + b) + [c] == a + (b + [c])
  {
  }

  /** The extension of `stem.x`, where x holds no '.' and no separator, is ".x". */
  lemma {:induction false} ExtOf(stem: string, x: string)
    requires '.' !in x && Separator !in x
    ensures Ext(stem + ['.'] + x) == ['.'] + x
  {
    if x == [] {
      ExtOfDot(stem);
    } else {
      var y, last := x[..|x| - 1], x[|x| - 1];
      assert last in x;
      assert x == y + [last];
      var q := stem + ['.'] + y;
      ExtOf(stem, y);
      ExtAppend(q, last);
      Snoc(['.'], y, last);
      Snoc(stem + ['.'], y, last);
    }
  }

  /** A path ending in '.' has extension ".". */
  lemma ExtOfDot(stem: string)
    ensures Ext(stem + ['.']) == ['.']
  {
    var p := stem + ['.'];
    assert p[|p| - 1] == '.';
  }

  /**
   * filepath.Join of a directory and a file name: the name alone when the
   * directory is empty, the two joined by a separator otherwise.
   */
  function Join(dir: string, name: string): (p: string)
    ensures |name| <= |p| && p[|p| - |name|..] == name
    ensures dir == [] ==> p == name
    ensures dir != [] ==> |p| == |dir| + 1 + |name| && p[..|dir|] == dir && p[|dir|] == Separator
  {
    if dir == [] then name else dir + [Separator] + name
  }

  /** The last element of a path ending in a separator and a separator-free name is that name. */
  lemma {:induction false} LastElementAfterSeparator(q: string, name: string)
    requires Separator !in name
    ensures LastElement(q + [Separator] + name) == name
  {
    var p := q + [Separator] + name;
    if name != [] {
      var init, last := name[..|name| - 1], name[|name| - 1];
      assert last in name;
      assert p[..|p| - 1] == q + [Separator] + init;
      LastElementAfterSeparator(q, init);
      assert init + [last] == name;
    } else {
      assert p[|p| - 1] == Separator;
    }
  }

  /** What Join puts in a directory, Base takes back out: a file name with no separator. */
  lemma BaseOfJoin(dir: string, name: string)
    requires name != [] && Separator !in name
    ensures Base(Join(dir, name)) == name
  {
    var p := Join(dir, name);
    assert p[|p| - 1] == name[|name| - 1] && name[|name| - 1] in name;
    assert TrimTrailingSeparators(p) == p;
    if dir != [] {
      LastElementAfterSeparator(dir, name);
    }
  }
}
