/**
 * The backend registry `getGenerator` (GeneratorImporter.py): a chain of equality tests on
 * the emulator name, each of which imports and constructs one generator and returns it,
 * ending in an exception for every other name.
 */
module GeneratorImporter {
  import opened Wrappers

  /** The generator classes the registry can construct. */
  datatype GeneratorKind = Eden | Citron | Sudachi | YuzuMainline | RyujinxMainline

  /** One test of the chain: `if emulator == name: return Kind()`. */
  datatype Branch = Branch(name: string, kind: GeneratorKind)

  /** The tests in the order the source makes them. */
  const Chain: seq<Branch> := [
    Branch("eden", Eden),
    Branch("citron", Citron),
    Branch("sudachi", Sudachi),
    Branch("yuzu-ea", YuzuMainline),
    Branch("ryujinx-greem", RyujinxMainline)
  ]

  /** What running a chain did: the generator it returned, and every generator it constructed. */
  datatype Dispatch = Dispatch(result: Option<GeneratorKind>, constructed: seq<GeneratorKind>)

  /**
   * Runs the tests in order. Only the first matching branch imports and constructs its
   * generator; when no branch matches nothing is constructed.
   */
  function RunChain(bs: seq<Branch>, emulator: string): (d: Dispatch)
    ensures d.result.None? <==> forall i :: 0 <= i < |bs| ==> bs[i].name != emulator
    ensures d.result.None? ==> d.constructed == []
    ensures d.result.Some? ==> d.constructed == [d.result.value]
    ensures d.result.Some? ==>
      exists i :: 0 <= i < |bs| && bs[i] == Branch(emulator, d.result.value) &&
        (forall j :: 0 <= j < i ==> bs[j].name != emulator)
  {
    if bs == [] then Dispatch(None, [])
    else if bs[0].name == emulator then Dispatch(Some(bs[0].kind), [bs[0].kind])
    else RunChain(bs[1..], emulator)
  }

  /** `getGenerator(emulator)`: the generator named, or the exception the source raises. */
  function GetGenerator(emulator: string): (r: Result<GeneratorKind, string>)
    ensures r.Ok? ==> Branch(emulator, r.value) in Chain
    ensures r.Err? <==> forall b :: b in Chain ==> b.name != emulator
    ensures r.Err? ==> r.error == "no generator found for emulator " + emulator
  {
    match RunChain(Chain, emulator).result
    case Some(k) => Ok(k)
    case None => Err("no generator found for emulator " + emulator)
  }

  ghost predicate DistinctNames(bs: seq<Branch>) {
    forall i, j :: 0 <= i < j < |bs| ==> bs[i].name != bs[j].name
  }

  /**
   * Over pairwise-distinct names a chain returns a generator exactly when it holds a
   * branch for that name, and then that branch's generator.
   */
  lemma ChainIsMembership(bs: seq<Branch>, emulator: string, k: GeneratorKind)
    requires DistinctNames(bs)
    ensures RunChain(bs, emulator).result == Some(k) <==> Branch(emulator, k) in bs
  {
    var d := RunChain(bs, emulator);
    if Branch(emulator, k) in bs {
      var j :| 0 <= j < |bs| && bs[j] == Branch(emulator, k);
      assert d.result.Some?;
      var i :| 0 <= i < |bs| && bs[i] == Branch(emulator, d.result.value) &&
        (forall j' :: 0 <= j' < i ==> bs[j'].name != emulator);
      assert i == j;
    }
  }

  /**
   * The order of the tests does not matter: two chains over the same pairwise-distinct
   * branches dispatch every name identically, constructions included.
   */
  lemma ChainOrderIrrelevant(bs1: seq<Branch>, bs2: seq<Branch>, emulator: string)
    requires DistinctNames(bs1) && DistinctNames(bs2)
    requires forall b :: b in bs1 <==> b in bs2
    ensures RunChain(bs1, emulator) == RunChain(bs2, emulator)
  {
    var d1, d2 := RunChain(bs1, emulator), RunChain(bs2, emulator);
    if d1.result.Some? {
      ChainIsMembership(bs1, emulator, d1.result.value);
      ChainIsMembership(bs2, emulator, d1.result.value);
    } else if d2.result.Some? {
      ChainIsMembership(bs2, emulator, d2.result.value);
      ChainIsMembership(bs1, emulator, d2.result.value);
    }
  }

  /** The registry as a table: an order-free reference for the chain. */
  const Registry: map<string, GeneratorKind> := map[
    "eden" := Eden,
    "citron" := Citron,
    "sudachi" := Sudachi,
    "yuzu-ea" := YuzuMainline,
    "ryujinx-greem" := RyujinxMainline
  ]

  /** The name under which each generator is registered. */
  function NameOf(k: GeneratorKind): string {
    match k
    case Eden => "eden"
    case Citron => "citron"
    case Sudachi => "sudachi"
    case YuzuMainline => "yuzu-ea"
    case RyujinxMainline => "ryujinx-greem"
  }

  /**
   * `getGenerator` is a table lookup by exact name: the five registered names give their
   * generators and every other string, letter-case variants included, gives the error.
   */
  lemma GetGeneratorIsLookup(emulator: string)
    ensures GetGenerator(emulator) ==
      if emulator in Registry then Ok(Registry[emulator])
      else Err("no generator found for emulator " + emulator)
  {
    assert DistinctNames(Chain);
    var d := RunChain(Chain, emulator);
    if emulator in Registry {
      ChainIsMembership(Chain, emulator, Registry[emulator]);
    } else if d.result.Some? {
      ChainIsMembership(Chain, emulator, d.result.value);
    }
  }

  /** Registry names and generators correspond one to one. */
  lemma GetGeneratorRoundTrip(emulator: string, k: GeneratorKind)
    ensures GetGenerator(NameOf(k)) == Ok(k)
    ensures GetGenerator(emulator) == Ok(k) ==> emulator == NameOf(k)
  {
    GetGeneratorIsLookup(NameOf(k));
    GetGeneratorIsLookup(emulator);
  }

  /** Names close to the registered ones are still unknown. */
  lemma NearMissesRejected()
    ensures GetGenerator("yuzu").Err? && GetGenerator("ryujinx").Err?
    ensures GetGenerator("Eden").Err? && GetGenerator("YUZU-EA").Err?
    ensures GetGenerator("").Err?
  {
    Unregistered("yuzu");
    Unregistered("ryujinx");
    Unregistered("Eden");
    Unregistered("YUZU-EA");
    Unregistered("");
  }

  lemma Unregistered(emulator: string)
    requires emulator !in Registry
    ensures GetGenerator(emulator).Err?
  {
    GetGeneratorIsLookup(emulator);
  }
}
