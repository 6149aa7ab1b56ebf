/**
 * The version-consistency script (scripts/match-versions.ts): collect every
 * dependency of every workspace manifest, report versions that are ranges
 * (`^...`) and packages used at more than one version, and fail when there
 * is anything to report.
 *
 * The file system is abstracted to the manifests found, in the order the
 * script visits them. A JavaScript object's entries are an association list
 * in key order; the `Map<string, Set<string>>` is a `PackageVersions` value
 * whose `names` keep the map's insertion order and whose version lists keep
 * each set's insertion order.
 */
module MatchVersions {
  import opened Wrappers
  import opened Strings

  /** `Object.entries` of a `dependencies` or `devDependencies` object. */
  type Dependencies = seq<(string, string)>

  /** A `package.json` that exists: the directory name it is reported under and its two dependency objects. */
  datatype Manifest = Manifest(child: string, dependencies: Option<Dependencies>, devDependencies: Option<Dependencies>)

  /** One dependency as the collection loop sees it. */
  datatype Use = Use(child: string, name: string, version: string)

  predicate NoDuplicates<T(==)>(s: seq<T>)
  {
    forall i, j :: 0 <= i < j < |s| ==> s[i] != s[j]
  }

  /** The value an object gives a key (its first entry with that key). */
  function Lookup(deps: Dependencies, name: string): (r: Option<string>)
    ensures r.Some? ==> (name, r.value) in deps
    ensures r.None? <==> forall i :: 0 <= i < |deps| ==> deps[i].0 != name
  {
    if deps == [] then None
    else if deps[0].0 == name then Some(deps[0].1)
    else Lookup(deps[1..], name)
  }

  /** The entries of `base`, each with the value `overrides` gives its key, if any. */
  function Overridden(base: Dependencies, overrides: Dependencies): (r: Dependencies)
    ensures |r| == |base|
    ensures forall i :: 0 <= i < |base| ==> r[i].0 == base[i].0
  {
    if base == [] then []
    else
      var value := Lookup(overrides, base[0].0).GetOr(base[0].1);
      [(base[0].0, value)] + Overridden(base[1..], overrides)
  }

  /** The entries of `extra` whose key `base` lacks, in order. */
  function NewEntries(extra: Dependencies, base: Dependencies): (r: Dependencies)
    ensures forall i :: 0 <= i < |r| ==> Lookup(base, r[i].0).None?
  {
    if extra == [] then []
    else
      var rest := NewEntries(extra[1..], base);
      if Lookup(base, extra[0].0).None? then [extra[0]] + rest else rest
  }

  /** The two dependency objects spread into one: shared keys stay where they were first defined and take the devDependencies value. */
  function MergeDependencies(dependencies: Dependencies, devDependencies: Dependencies): (r: Dependencies)
    ensures |r| >= |dependencies|
    ensures forall i :: 0 <= i < |dependencies| ==> r[i].0 == dependencies[i].0
    ensures forall i :: |dependencies| <= i < |r| ==> Lookup(dependencies, r[i].0).None?
  {
    Overridden(dependencies, devDependencies) + NewEntries(devDependencies, dependencies)
  }

  /** The keys of an object, in order. */
  function Keys(deps: Dependencies): seq<string>
  {
    seq(|deps|, i requires 0 <= i < |deps| => deps[i].0)
  }

  /**
   * The new entries of a concatenation are those of each part, in order; with
   * the one-entry case of the definition this fixes the tail of a merge as the
   * devDependencies-only entries, each once, in devDependencies' order.
   */
  lemma {:induction false} NewEntriesAppend(a: Dependencies, b: Dependencies, base: Dependencies)
    ensures NewEntries(a + b, base) == NewEntries(a, base) + NewEntries(b, base)
  {
    if a == [] {
      assert a + b == b;
    } else {
      assert (a + b)[0] == a[0];
      assert (a + b)[1..] == a[1..] + b;
      NewEntriesAppend(a[1..], b, base);
    }
  }

  /** The new entries are entries of `extra`, and keep its keys distinct. */
  lemma {:induction false} NewEntriesKeysDistinct(extra: Dependencies, base: Dependencies)
    requires NoDuplicates(Keys(extra))
    ensures forall i :: 0 <= i < |NewEntries(extra, base)| ==> NewEntries(extra, base)[i] in extra
    ensures NoDuplicates(Keys(NewEntries(extra, base)))
  {
    if extra != [] {
      var tail := extra[1..];
      assert Keys(tail) == Keys(extra)[1..];
      NewEntriesKeysDistinct(tail, base);
      var rest := NewEntries(tail, base);
      forall i | 0 <= i < |rest|
        ensures rest[i].0 != extra[0].0
      {
        var k :| 0 <= k < |tail| && tail[k] == rest[i];
        assert Keys(extra)[k + 1] == rest[i].0 && Keys(extra)[0] == extra[0].0;
      }
      if Lookup(base, extra[0].0).None? {
        var r := [extra[0]] + rest;
        var keys := Keys(r);
        forall i, j | 0 <= i < j < |keys|
          ensures keys[i] != keys[j]
        {
          if i == 0 {
            assert keys[j] == rest[j - 1].0;
          } else {
            assert keys[i] == Keys(rest)[i - 1] && keys[j] == Keys(rest)[j - 1];
          }
        }
      }
    }
  }

  /** Merging two objects with distinct keys gives an object with distinct keys: each package appears once. */
  lemma MergeKeysDistinct(dependencies: Dependencies, devDependencies: Dependencies)
    requires NoDuplicates(Keys(dependencies)) && NoDuplicates(Keys(devDependencies))
    ensures NoDuplicates(Keys(MergeDependencies(dependencies, devDependencies)))
  {
    var o := Overridden(dependencies, devDependencies);
    var n := NewEntries(devDependencies, dependencies);
    NewEntriesKeysDistinct(devDependencies, dependencies);
    var keys := Keys(o + n);
    forall i, j | 0 <= i < j < |keys|
      ensures keys[i] != keys[j]
    {
      if j < |o| {
        assert keys[i] == Keys(dependencies)[i] && keys[j] == Keys(dependencies)[j];
      } else if i >= |o| {
        assert keys[i] == Keys(n)[i - |o|] && keys[j] == Keys(n)[j - |o|];
      } else {
        assert keys[i] == dependencies[i].0;
        assert Lookup(dependencies, keys[j]).None?;
      }
    }
  }

  lemma {:induction false} OverriddenLookup(base: Dependencies, overrides: Dependencies, name: string)
    ensures Lookup(Overridden(base, overrides), name) ==
      if Lookup(base, name).Some? && Lookup(overrides, name).Some? then Lookup(overrides, name) else Lookup(base, name)
  {
    if base != [] {
      OverriddenLookup(base[1..], overrides, name);
    }
  }

  lemma {:induction false} NewEntriesLookup(extra: Dependencies, base: Dependencies, name: string)
    ensures Lookup(NewEntries(extra, base), name) == if Lookup(base, name).Some? then None else Lookup(extra, name)
  {
    if extra != [] {
      NewEntriesLookup(extra[1..], base, name);
    }
  }

  lemma {:induction false} LookupAppend(a: Dependencies, b: Dependencies, name: string)
    ensures Lookup(a + b, name) == if Lookup(a, name).Some? then Lookup(a, name) else Lookup(b, name)
  {
    if a == [] {
      assert a + b == b;
    } else {
      assert (a + b)[0] == a[0];
      assert (a + b)[1..] == a[1..] + b;
      LookupAppend(a[1..], b, name);
    }
  }

  /** A devDependencies entry wins over a dependencies entry for the same package; no package is lost. */
  lemma MergeLookup(dependencies: Dependencies, devDependencies: Dependencies, name: string)
    ensures Lookup(MergeDependencies(dependencies, devDependencies), name) ==
      if Lookup(devDependencies, name).Some? then Lookup(devDependencies, name) else Lookup(dependencies, name)
  {
    LookupAppend(Overridden(dependencies, devDependencies), NewEntries(devDependencies, dependencies), name);
    OverriddenLookup(dependencies, devDependencies, name);
    NewEntriesLookup(devDependencies, dependencies, name);
  }

  function MergedEntries(m: Manifest): Dependencies
  {
    MergeDependencies(m.dependencies.GetOr([]), m.devDependencies.GetOr([]))
  }

  /** The uses one manifest contributes, in `Object.entries` order. */
  function ManifestUses(m: Manifest): (r: seq<Use>)
    ensures |r| == |MergedEntries(m)|
    ensures forall j :: 0 <= j < |r| ==> r[j] == Use(m.child, MergedEntries(m)[j].0, MergedEntries(m)[j].1)
  {
    var all := MergedEntries(m);
    seq(|all|, j requires 0 <= j < |all| => Use(m.child, all[j].0, all[j].1))
  }

  /** Every use of every manifest, in visiting order. */
  function AllUses(manifests: seq<Manifest>): seq<Use>
  {
    if manifests == [] then []
    else AllUses(manifests[..|manifests| - 1]) + ManifestUses(manifests[|manifests| - 1])
  }

  /** The map's keys: each package name once, in order of first use. */
  function PackageNames(uses: seq<Use>): (names: seq<string>)
    ensures NoDuplicates(names)
  {
    if uses == [] then []
    else
      var names := PackageNames(uses[..|uses| - 1]);
      if uses[|uses| - 1].name in names then names else names + [uses[|uses| - 1].name]
  }

  /** The set kept for `name`: each version used for it once, in order of first use. */
  function VersionsOf(uses: seq<Use>, name: string): (versions: seq<string>)
    ensures NoDuplicates(versions)
  {
    if uses == [] then []
    else
      var versions := VersionsOf(uses[..|uses| - 1], name);
      var last := uses[|uses| - 1];
      if last.name == name && last.version !in versions then versions + [last.version] else versions
  }

  predicate IsCaret(version: string)
  {
    |version| > 0 && version[0] == '^'
  }

  function CaretMessage(u: Use): string
  {
    u.child + " - " + u.name + " - " + u.version + " is not pinned to exact version"
  }

  /** One message per use whose version starts with `^`, in order. */
  function CaretErrors(uses: seq<Use>): (errors: seq<string>)
    ensures |errors| <= |uses|
  {
    if uses == [] then []
    else
      var errors := CaretErrors(uses[..|uses| - 1]);
      var last := uses[|uses| - 1];
      if IsCaret(last.version) then errors + [CaretMessage(last)] else errors
  }

  function MismatchMessage(name: string, versions: seq<string>): string
  {
    name + " version mismatch - " + Join(versions, ", ")
  }

  /** The names among `names` whose set does not have exactly one version, in order. */
  function MismatchedNames(uses: seq<Use>, names: seq<string>): (r: seq<string>)
    ensures forall n :: n in r <==> n in names && |VersionsOf(uses, n)| != 1
  {
    if names == [] then []
    else
      var r := MismatchedNames(uses, names[..|names| - 1]);
      var last := names[|names| - 1];
      assert names == names[..|names| - 1] + [last];
      if |VersionsOf(uses, last)| != 1 then r + [last] else r
  }

  /** The mismatch messages for `names`, one per name whose set does not hold exactly one version, in order. */
  function MismatchErrors(uses: seq<Use>, names: seq<string>): seq<string>
  {
    if names == [] then []
    else
      var errors := MismatchErrors(uses, names[..|names| - 1]);
      var last := names[|names| - 1];
      if |VersionsOf(uses, last)| != 1 then errors + [MismatchMessage(last, VersionsOf(uses, last))] else errors
  }

  /** The k-th mismatch message names the k-th reported package and lists its versions. */
  lemma {:induction false} MismatchErrorsDescribed(uses: seq<Use>, names: seq<string>)
    ensures |MismatchErrors(uses, names)| == |MismatchedNames(uses, names)|
    ensures forall k :: 0 <= k < |MismatchErrors(uses, names)| ==>
      MismatchErrors(uses, names)[k] ==
        MismatchMessage(MismatchedNames(uses, names)[k], VersionsOf(uses, MismatchedNames(uses, names)[k]))
  {
    if names != [] {
      MismatchErrorsDescribed(uses, names[..|names| - 1]);
    }
  }

  /** The `errors` array at the end: every caret error, then every mismatch error. */
  function Report(manifests: seq<Manifest>): (errors: seq<string>)
    ensures var uses := AllUses(manifests);
      |errors| == |CaretErrors(uses)| + |MismatchedNames(uses, PackageNames(uses))|
  {
    var uses := AllUses(manifests);
    MismatchErrorsDescribed(uses, PackageNames(uses));
    CaretErrors(uses) + MismatchErrors(uses, PackageNames(uses))
  }

  // Properties of the collected table.

  /** A version is in a package's set exactly when some use of that package had it. */
  lemma {:induction false} VersionsOfSeen(uses: seq<Use>, name: string, version: string)
    ensures version in VersionsOf(uses, name) <==>
      exists i :: 0 <= i < |uses| && uses[i].name == name && uses[i].version == version
  {
    if uses != [] {
      var init := uses[..|uses| - 1];
      VersionsOfSeen(init, name, version);
      if exists i :: 0 <= i < |init| && init[i].name == name && init[i].version == version {
        var i :| 0 <= i < |init| && init[i].name == name && init[i].version == version;
        assert uses[i] == init[i];
      }
      if exists i :: 0 <= i < |uses| && uses[i].name == name && uses[i].version == version {
        var i :| 0 <= i < |uses| && uses[i].name == name && uses[i].version == version;
        if i < |init| {
          assert init[i] == uses[i];
        }
      }
    }
  }

  /** A package that was never used has no versions. */
  lemma {:induction false} UnusedHasNoVersions(uses: seq<Use>, name: string)
    requires name !in PackageNames(uses)
    ensures VersionsOf(uses, name) == []
  {
    if uses != [] {
      UnusedHasNoVersions(uses[..|uses| - 1], name);
    }
  }

  /** A package is a key of the table exactly when it was used. */
  lemma {:induction false} PackageNamesUsed(uses: seq<Use>, name: string)
    ensures name in PackageNames(uses) <==> exists i :: 0 <= i < |uses| && uses[i].name == name
  {
    if uses != [] {
      var init := uses[..|uses| - 1];
      PackageNamesUsed(init, name);
      if exists i :: 0 <= i < |init| && init[i].name == name {
        var i :| 0 <= i < |init| && init[i].name == name;
        assert uses[i] == init[i];
      }
      if exists i :: 0 <= i < |uses| && uses[i].name == name {
        var i :| 0 <= i < |uses| && uses[i].name == name;
        if i < |init| {
          assert init[i] == uses[i];
        }
      }
    }
  }

  /** A package is a key of the table exactly when it was used, and then its set is not empty. */
  lemma PackageNamesSeen(uses: seq<Use>, name: string)
    ensures name in PackageNames(uses) <==> exists i :: 0 <= i < |uses| && uses[i].name == name
    ensures name in PackageNames(uses) ==> |VersionsOf(uses, name)| >= 1
  {
    PackageNamesUsed(uses, name);
    if name in PackageNames(uses) {
      var i :| 0 <= i < |uses| && uses[i].name == name;
      VersionsOfSeen(uses, name, uses[i].version);
    }
  }

  /**
   * A package is reported as a mismatch exactly when two of its uses name
   * different versions; using one version many times is not a mismatch.
   */
  lemma MismatchIffConflictingUses(uses: seq<Use>, name: string)
    ensures name in MismatchedNames(uses, PackageNames(uses)) <==>
      exists i, j :: 0 <= i < |uses| && 0 <= j < |uses| &&
        uses[i].name == name && uses[j].name == name && uses[i].version != uses[j].version
  {
    if name in MismatchedNames(uses, PackageNames(uses)) {
      ConflictFromMismatch(uses, name);
    }
    if exists i, j :: 0 <= i < |uses| && 0 <= j < |uses| &&
         uses[i].name == name && uses[j].name == name && uses[i].version != uses[j].version {
      var i, j :| 0 <= i < |uses| && 0 <= j < |uses| &&
                  uses[i].name == name && uses[j].name == name && uses[i].version != uses[j].version;
      MismatchFromConflict(uses, name, i, j);
    }
  }

  /** A reported package has two uses at different versions. */
  lemma ConflictFromMismatch(uses: seq<Use>, name: string)
    requires name in MismatchedNames(uses, PackageNames(uses))
    ensures exists i, j ::
              0 <= i < |uses| && 0 <= j < |uses| &&
              uses[i].name == name && uses[j].name == name && uses[i].version != uses[j].version
  {
    var versions := VersionsOf(uses, name);
    PackageNamesSeen(uses, name);
    assert |versions| >= 2;
    VersionsOfSeen(uses, name, versions[0]);
    VersionsOfSeen(uses, name, versions[1]);
    var i :| 0 <= i < |uses| && uses[i].name == name && uses[i].version == versions[0];
    var j :| 0 <= j < |uses| && uses[j].name == name && uses[j].version == versions[1];
    assert uses[i].version != uses[j].version;
  }

  /** Two uses of a package at different versions get it reported. */
  lemma MismatchFromConflict(uses: seq<Use>, name: string, i: nat, j: nat)
    requires i < |uses| && j < |uses|
    requires uses[i].name == name && uses[j].name == name && uses[i].version != uses[j].version
    ensures name in MismatchedNames(uses, PackageNames(uses))
  {
    var versions := VersionsOf(uses, name);
    var a, b := uses[i].version, uses[j].version;
    VersionsOfSeen(uses, name, a);
    VersionsOfSeen(uses, name, b);
    TwoMembersNotSingleton(versions, a, b);
    PackageNamesSeen(uses, name);
    var names := PackageNames(uses);
    assert name in names && |VersionsOf(uses, name)| != 1;
  }

  lemma TwoMembersNotSingleton(s: seq<string>, a: string, b: string)
    requires a in s && b in s && a != b
    ensures |s| != 1
  {
  }

  /** Every caret use is reported, naming its directory, package and version. */
  lemma {:induction false} CaretUseReported(uses: seq<Use>, i: nat)
    requires i < |uses| && IsCaret(uses[i].version)
    ensures CaretMessage(uses[i]) in CaretErrors(uses)
  {
    var init := uses[..|uses| - 1];
    if i < |init| {
      assert init[i] == uses[i];
      CaretUseReported(init, i);
    }
  }

  /** Every caret error comes from a caret use. */
  lemma {:induction false} CaretErrorsFromUses(uses: seq<Use>, k: nat)
    requires k < |CaretErrors(uses)|
    ensures exists i :: 0 <= i < |uses| && IsCaret(uses[i].version) && CaretErrors(uses)[k] == CaretMessage(uses[i])
  {
    var init := uses[..|uses| - 1];
    if k < |CaretErrors(init)| {
      CaretErrorsFromUses(init, k);
      var i :| 0 <= i < |init| && IsCaret(init[i].version) && CaretErrors(init)[k] == CaretMessage(init[i]);
      assert uses[i] == init[i];
    } else {
      assert CaretErrors(uses)[k] == CaretMessage(uses[|uses| - 1]);
    }
  }

  /** No use has a caret version. */
  predicate AllPinned(uses: seq<Use>)
  {
    forall i :: 0 <= i < |uses| ==> !IsCaret(uses[i].version)
  }

  /** Every package is used at one version throughout. */
  predicate SingleVersions(uses: seq<Use>)
  {
    forall i, j :: 0 <= i < |uses| && 0 <= j < |uses| && uses[i].name == uses[j].name ==>
      uses[i].version == uses[j].version
  }

  /** There are no caret errors exactly when no use has a caret version. */
  lemma {:induction false} NoCaretErrorsIffPinned(uses: seq<Use>)
    ensures CaretErrors(uses) == [] <==> AllPinned(uses)
  {
    if uses != [] {
      var init := uses[..|uses| - 1];
      NoCaretErrorsIffPinned(init);
      assert forall i :: 0 <= i < |init| ==> init[i] == uses[i];
    }
  }

  /** No package is reported exactly when every package is used at one version throughout. */
  lemma NoMismatchIffConsistent(uses: seq<Use>)
    ensures MismatchedNames(uses, PackageNames(uses)) == [] <==> SingleVersions(uses)
  {
    var mismatched := MismatchedNames(uses, PackageNames(uses));
    if mismatched != [] {
      MismatchIffConflictingUses(uses, mismatched[0]);
    }
    forall i, j | 0 <= i < |uses| && 0 <= j < |uses| && uses[i].name == uses[j].name && uses[i].version != uses[j].version
      ensures mismatched != []
    {
      MismatchFromConflict(uses, uses[i].name, i, j);
    }
  }

  /**
   * The script succeeds exactly when no dependency is given as a caret range
   * and every package is used at one version throughout.
   */
  lemma ReportEmptyIffConsistent(manifests: seq<Manifest>)
    ensures Report(manifests) == [] <==> AllPinned(AllUses(manifests)) && SingleVersions(AllUses(manifests))
  {
    var uses := AllUses(manifests);
    NoCaretErrorsIffPinned(uses);
    NoMismatchIffConsistent(uses);
  }

  // The script.

  /** The `packageVersions` map: its keys in insertion order and each key's set. */
  datatype PackageVersions = PackageVersions(names: seq<string>, versions: map<string, seq<string>>)

  /** The map and the error list hold what the uses seen so far put there. */
  ghost predicate Collected(uses: seq<Use>, table: PackageVersions, errors: seq<string>)
  {
    && table.names == PackageNames(uses)
    && (forall n :: n in table.versions <==> n in table.names)
    && (forall n :: n in table.versions ==> table.versions[n] == VersionsOf(uses, n))
    && errors == CaretErrors(uses)
  }

  /** The facts about the specification functions that one more use needs. */
  lemma CollectStep(uses: seq<Use>, u: Use)
    ensures PackageNames(uses + [u]) ==
      if u.name in PackageNames(uses) then PackageNames(uses) else PackageNames(uses) + [u.name]
    ensures CaretErrors(uses + [u]) ==
      if IsCaret(u.version) then CaretErrors(uses) + [CaretMessage(u)] else CaretErrors(uses)
    ensures forall n :: (VersionsOf(uses + [u], n) ==
      if n == u.name && u.version !in VersionsOf(uses, n) then VersionsOf(uses, n) + [u.version] else VersionsOf(uses, n))
    ensures u.name !in PackageNames(uses) ==> VersionsOf(uses, u.name) == []
  {
    var next := uses + [u];
    assert next[..|next| - 1] == uses && next[|next| - 1] == u;
    if u.name !in PackageNames(uses) {
      UnusedHasNoVersions(uses, u.name);
    }
  }

  /** The body of the entries loop of `parsePackageJSON`, for one dependency. */
  method AddUse(child: string, packageName: string, version: string,
                table: PackageVersions, errors: seq<string>, ghost uses: seq<Use>)
    returns (table': PackageVersions, errors': seq<string>)
    requires Collected(uses, table, errors)
    ensures Collected(uses + [Use(child, packageName, version)], table', errors')
  {
    CollectStep(uses, Use(child, packageName, version));
    errors' := errors;
    if IsCaret(version) {
      errors' := errors' + [child + " - " + packageName + " - " + version + " is not pinned to exact version"];
    }
    if packageName in table.versions {
      var versions := table.versions[packageName];
      if version !in versions {
        table' := table.(versions := table.versions[packageName := versions + [version]]);
      } else {
        table' := table;
      }
    } else {
      table' := PackageVersions(table.names + [packageName], table.versions[packageName := [version]]);
    }
  }

  /** `parsePackageJSON` on a manifest that exists: add its uses to the map and its caret errors to the list. */
  method ParsePackageJson(m: Manifest, table: PackageVersions, errors: seq<string>, ghost uses: seq<Use>)
    returns (table': PackageVersions, errors': seq<string>)
    requires Collected(uses, table, errors)
    ensures Collected(uses + ManifestUses(m), table', errors')
  {
    var allDependencies := MergeDependencies(m.dependencies.GetOr([]), m.devDependencies.GetOr([]));
    ghost var manifestUses := ManifestUses(m);
    table', errors' := table, errors;
    ghost var seen := uses;
    for j := 0 to |allDependencies|
      invariant seen == uses + manifestUses[..j]
      invariant Collected(seen, table', errors')
    {
      var (packageName, version) := allDependencies[j];
      assert manifestUses[..j + 1] == manifestUses[..j] + [Use(m.child, packageName, version)];
      table', errors' := AddUse(m.child, packageName, version, table', errors', seen);
      seen := seen + [Use(m.child, packageName, version)];
    }
    assert manifestUses[..|allDependencies|] == manifestUses;
  }

  /**
   * `main` over the manifests found: the errors are every caret error and
   * then every mismatch error, and the exit status is 1 exactly when there
   * are any (0 is the success message).
   */
  method CheckVersions(manifests: seq<Manifest>) returns (errors: seq<string>, exitCode: int)
    ensures errors == Report(manifests)
    ensures exitCode == (if |errors| > 0 then 1 else 0)
  {
    var table := PackageVersions([], map[]);
    errors := [];
    for i := 0 to |manifests|
      invariant Collected(AllUses(manifests[..i]), table, errors)
    {
      assert manifests[..i + 1][..i] == manifests[..i];
      table, errors := ParsePackageJson(manifests[i], table, errors, AllUses(manifests[..i]));
    }
    assert manifests[..|manifests|] == manifests;
    errors := AppendMismatches(table, errors, AllUses(manifests));
    exitCode := if |errors| > 0 then 1 else 0;
  }

  /** The mismatch loop of `main`: one message per package whose set does not hold exactly one version, in map order. */
  method AppendMismatches(table: PackageVersions, errors: seq<string>, ghost uses: seq<Use>)
    returns (errors': seq<string>)
    requires forall n :: n in table.names ==> n in table.versions && table.versions[n] == VersionsOf(uses, n)
    ensures errors' == errors + MismatchErrors(uses, table.names)
  {
    errors' := errors;
    for k := 0 to |table.names|
      invariant errors' == errors + MismatchErrors(uses, table.names[..k])
    {
      var packageName := table.names[k];
      var versions := table.versions[packageName];
      assert table.names[..k + 1][..k] == table.names[..k];
      if |versions| != 1 {
        errors' := errors' + [MismatchMessage(packageName, versions)];
      }
    }
    assert table.names[..|table.names|] == table.names;
  }

}
