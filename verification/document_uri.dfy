/** `DocumentUri`: an immutable path made of name components, a flag saying whether it is
    absolute, and the name of its root. Every operation builds a new value. Also the
    `.gan` extension helper for project file names. */
module Document {
  import opened JavaText

  datatype DocumentUri = DocumentUri(components: seq<string>, isAbsolute: bool, root: string)
  {
    function NameCount(): (n: nat)
      ensures n == |components|
    {
      |components|
    }

    /** The components `start` (inclusive) to `end` (exclusive); absolute only when it
        starts at the first component of an absolute path. */
    function Subpath(start: nat, end: nat): (u: DocumentUri)
      requires start <= end <= |components|
      ensures u.NameCount() == end - start
      ensures u.isAbsolute <==> start == 0 && isAbsolute
      ensures u.root == root
      ensures forall i :: 0 <= i < end - start ==> u.components[i] == components[start + i]
    {
      DocumentUri(components[start..end], if start == 0 then isAbsolute else false, root)
    }

    /** The root alone: no components, absolute. */
    function Root(): (u: DocumentUri)
      ensures u.components == [] && u.isAbsolute && u.root == root
    {
      DocumentUri([], true, root)
    }

    /** The component at `idx`. */
    function Name(idx: nat): (s: string)
      requires idx < |components|
      ensures s == components[idx]
    {
      components[idx]
    }

    function FileName(): (s: string)
      requires components != []
      ensures s == components[|components| - 1]
    {
      components[|components| - 1]
    }

    /** The path without its last component; the empty path is its own parent. */
    function Parent(): (u: DocumentUri)
      ensures components == [] ==> u == this
      ensures components != [] ==> u.components + [FileName()] == components
      ensures u.isAbsolute == isAbsolute && u.root == root
    {
      if components == [] then this
      else DocumentUri(components[..|components| - 1], isAbsolute, root)
    }

    /** One step of `resolve`: "" and "." stay, ".." goes up, any other name goes down. */
    function ResolveName(name: string): (u: DocumentUri)
      ensures name == "" || name == "." ==> u == this
      ensures name == ".." ==> u == Parent()
      ensures !IsSpecial(name) ==> u.components == components + [name]
      ensures !IsSpecial(name) ==> u.NameCount() == NameCount() + 1 && u.FileName() == name
      ensures u.isAbsolute == isAbsolute && u.root == root
    {
      if name == "" || name == "." then this
      else if name == ".." then Parent()
      else DocumentUri(components + [name], isAbsolute, root)
    }

    /** `resolve(path)` for a relative path: `ResolveName` applied to each component of
        `names`, left to right. */
    function ResolveAll(names: seq<string>): (u: DocumentUri)
      decreases |names|
    {
      if names == [] then this
      else ResolveAll(names[..|names| - 1]).ResolveName(names[|names| - 1])
    }

    /** `resolve(path)`: an absolute path replaces this one, a relative one is walked
        component by component. */
    method Resolve(path: DocumentUri) returns (u: DocumentUri)
      ensures path.isAbsolute ==> u == path
      ensures !path.isAbsolute ==> u == ResolveAll(path.components)
    {
      if path.isAbsolute {
        return path;
      }
      u := this;
      var idx := 0;
      while idx < path.NameCount()
        invariant 0 <= idx <= |path.components|
        invariant u == ResolveAll(path.components[..idx])
      {
        assert path.components[..idx + 1][..idx] == path.components[..idx];
        u := u.ResolveName(path.Name(idx));
        idx := idx + 1;
      }
      assert path.components[..idx] == path.components;
    }

    /** `normalize`: the root, resolved against this path's components taken as relative. */
    function Normalize(): (u: DocumentUri)
      ensures u.isAbsolute && u.root == root
    {
      ResolveAllKeepsRoot(Root(), components);
      Root().ResolveAll(components)
    }

    function RootName(): (s: string)
      ensures s == root
    {
      root
    }

    /** `toString`: a slash, then the components joined by slashes, whatever the root and
        whether absolute or not. */
    function ToString(): (s: string)
      ensures |s| >= 1 && s[0] == '/'
      ensures s[1..] == Join(components, "/")
    {
      JoinWithPrefix(components, "/", "/")
    }
  }

  /** The component names `resolve` treats specially. */
  predicate IsSpecial(name: string) { name == "" || name == "." || name == ".." }

  /** No component that `normalize` would remove. */
  predicate Clean(names: seq<string>) { forall i :: 0 <= i < |names| ==> !IsSpecial(names[i]) }

  lemma {:induction false} ResolveAllKeepsRoot(u: DocumentUri, names: seq<string>)
    ensures u.ResolveAll(names).isAbsolute == u.isAbsolute
    ensures u.ResolveAll(names).root == u.root
    decreases |names|
  {
    if names != [] {
      ResolveAllKeepsRoot(u, names[..|names| - 1]);
    }
  }

  /** Walking names that are all ordinary appends them. */
  lemma {:induction false} ResolveAllClean(u: DocumentUri, names: seq<string>)
    requires Clean(names)
    ensures u.ResolveAll(names) == u.(components := u.components + names)
    decreases |names|
  {
    if names == [] {
      assert u.components + names == u.components;
    } else {
      var init := names[..|names| - 1];
      assert Clean(init);
      ResolveAllClean(u, init);
      assert u.components + init + [names[|names| - 1]] == u.components + names;
    }
  }

  /** Walking any names from a clean path leaves a clean path. */
  lemma {:induction false} ResolveAllStaysClean(u: DocumentUri, names: seq<string>)
    requires Clean(u.components)
    ensures Clean(u.ResolveAll(names).components)
    decreases |names|
  {
    if names != [] {
      var init := names[..|names| - 1];
      ResolveAllStaysClean(u, init);
      var v := u.ResolveAll(init);
      if v.components != [] {
        assert forall i :: 0 <= i < |v.components| - 1 ==> v.components[..|v.components| - 1][i] == v.components[i];
      }
    }
  }

  /** A normalized path is absolute, keeps the root and has no "", "." or ".." component. */
  lemma NormalizeClean(u: DocumentUri)
    ensures u.Normalize().isAbsolute && u.Normalize().root == u.root
    ensures Clean(u.Normalize().components)
  {
    ResolveAllStaysClean(u.Root(), u.components);
  }

  /** A path made of ordinary names normalizes to its absolute form. */
  lemma NormalizeOfClean(u: DocumentUri)
    requires Clean(u.components)
    ensures u.Normalize() == u.(isAbsolute := true)
  {
    ResolveAllClean(u.Root(), u.components);
    assert [] + u.components == u.components;
  }

  /** Normalizing twice is normalizing once. */
  lemma NormalizeIdempotent(u: DocumentUri)
    ensures u.Normalize().Normalize() == u.Normalize()
  {
    NormalizeClean(u);
    NormalizeOfClean(u.Normalize());
  }

  /** Resolving a relative path made of ordinary names appends them. */
  lemma ResolveRelativeAppends(u: DocumentUri, names: seq<string>)
    requires Clean(names)
    ensures u.ResolveAll(names).components == u.components + names
    ensures u.ResolveAll(names).NameCount() == u.NameCount() + |names|
  {
    ResolveAllClean(u, names);
  }

  /** `toString` does not show the root or whether the path is absolute. */
  lemma ToStringIgnoresRoot(u: DocumentUri, v: DocumentUri)
    requires u.components == v.components
    ensures u.ToString() == v.ToString()
  {
  }

  /** Splitting `toString` after its leading slash gives back the components, as long as
      there is at least one and none holds a slash. */
  lemma ToStringSplit(u: DocumentUri)
    requires u.components != []
    requires forall i :: 0 <= i < |u.components| ==> '/' !in u.components[i]
    ensures Split(u.ToString()[1..], '/') == u.components
  {
    SplitJoin(u.components, '/');
  }

  // ---------------------------------------------------------------------------------------
  // Project file names

  /** `withGanExtension`: the name as it is when it already ends in ".gan" in any letter
      case, otherwise the name with ".gan" appended. */
  function WithGanExtension(s: string): (r: string)
    ensures EndsWith(LowerCase(s), ".gan") ==> r == s
    ensures !EndsWith(LowerCase(s), ".gan") ==> r == s + ".gan"
  {
    if EndsWith(LowerCase(s), ".gan") then s else s + ".gan"
  }

  /** The result always ends in ".gan" (in some letter case). */
  lemma WithGanExtensionEnds(s: string)
    ensures EndsWith(LowerCase(WithGanExtension(s)), ".gan")
  {
    if !EndsWith(LowerCase(s), ".gan") {
      var t := s + ".gan";
      var l := LowerCase(t);
      forall i | 0 <= i < 4 ensures l[|s| + i] == ".gan"[i] {
        assert t[|s| + i] == ".gan"[i];
      }
      assert l[|l| - 4..] == ".gan";
    }
  }

  /** Adding the extension twice is adding it once. */
  lemma WithGanExtensionIdempotent(s: string)
    ensures WithGanExtension(WithGanExtension(s)) == WithGanExtension(s)
  {
    WithGanExtensionEnds(s);
  }
}
