/** The package-list filter of the interface: facet selections and a minimum in-degree. */
module FacetFilters {
  import opened Seqs
  import opened Models

  /**
   * The selections the filter panel returns. An empty list selects nothing in particular and
   * so imposes no constraint; `relationTypes` is used by the graph filter only.
   */
  datatype Filters = Filters(
    domains: seq<string>,
    roles: seq<string>,
    health: seq<string>,
    relationTypes: seq<string>,
    minInDegree: int)

  /** The tests of `apply_filters` that a package must pass to stay in the list. */
  predicate Passes(f: Filters, p: Package) {
    (f.domains == [] || p.domain in f.domains)
    && (f.roles == [] || p.role in f.roles)
    && (f.health == [] || p.healthStatus in f.health)
    && p.inDegree >= f.minInDegree
  }

  /** What `apply_filters` returns. */
  function Selected(packages: seq<Package>, f: Filters): seq<Package> {
    Filter((p: Package) => Passes(f, p), packages)
  }

  /** `apply_filters`: skip each package that fails a test, keep the rest in order. */
  method ApplyFilters(packages: seq<Package>, f: Filters) returns (filtered: seq<Package>)
    ensures filtered == Selected(packages, f)
  {
    filtered := [];
    for i := 0 to |packages|
      invariant filtered == Selected(packages[..i], f)
    {
      assert packages[..i + 1] == packages[..i] + [packages[i]];
      assert packages[..i + 1][..i] == packages[..i];
      var pkg := packages[i];
      if f.domains != [] && pkg.domain !in f.domains {
        continue;
      }
      if f.roles != [] && pkg.role !in f.roles {
        continue;
      }
      if f.health != [] && pkg.healthStatus !in f.health {
        continue;
      }
      if pkg.inDegree < f.minInDegree {
        continue;
      }
      filtered := filtered + [pkg];
    }
    assert packages[..|packages|] == packages;
  }

  /**
   * The result keeps the input's order and drops packages only; a package is kept exactly
   * when it passes every test.
   */
  lemma {:induction false} SelectedIsOrderedSelection(packages: seq<Package>, f: Filters, p: Package)
    ensures IsSubsequence(Selected(packages, f), packages)
    ensures p in Selected(packages, f) <==> p in packages && Passes(f, p)
  {
    FilterIsSubsequence((p: Package) => Passes(f, p), packages);
    FilterMember((p: Package) => Passes(f, p), packages, p);
  }

  /** With an empty domain list the domain of a package does not matter; likewise for roles and health. */
  lemma {:induction false} EmptyFacetIgnored(f: Filters, p: Package, domain: string, role: string, health: string)
    ensures f.domains == [] ==> (Passes(f, p) <==> Passes(f, p.(domain := domain)))
    ensures f.roles == [] ==> (Passes(f, p) <==> Passes(f, p.(role := role)))
    ensures f.health == [] ==> (Passes(f, p) <==> Passes(f, p.(healthStatus := health)))
  {
  }

  /** With no facet selected and no in-degree below the minimum, every package stays. */
  lemma {:induction false} NoSelectionKeepsAll(packages: seq<Package>, f: Filters)
    requires f.domains == [] && f.roles == [] && f.health == []
    requires forall i :: 0 <= i < |packages| ==> packages[i].inDegree >= f.minInDegree
    ensures Selected(packages, f) == packages
  {
    FilterAll((p: Package) => Passes(f, p), packages);
  }

  /** Filtering twice with the same selections changes nothing the second time. */
  lemma {:induction false} SelectedIdempotent(packages: seq<Package>, f: Filters)
    ensures Selected(Selected(packages, f), f) == Selected(packages, f)
  {
    var once := Selected(packages, f);
    forall i | 0 <= i < |once|
      ensures Passes(f, once[i])
    {
      FilterMember((p: Package) => Passes(f, p), packages, once[i]);
    }
    FilterAll((p: Package) => Passes(f, p), once);
  }
}
