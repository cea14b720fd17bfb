/** From a file to a bound image: the offline step, the loader's checks and mappings, and import binding, in order. */
module Loader {
  import opened Bytes
  import opened PeFile
  import opened PrepareImage
  import opened ImageMap
  import opened ImageTheory
  import opened AccessLog
  import opened ImportSpec
  import opened ImportTables
  import opened ImportTheory
  import opened ImportFaults
  import opened Imports

  /** `laid` shows the layout rule at every byte the page map makes accessible. */
  ghost predicate ShowsLayout(img: Image, raw: seq<u8>, laid: seq<u8>)
    requires PrepareAccepts(raw)
    reads img, img.prot
  {
    forall a :: 0 <= a < |laid| && img.Accessible(a) ==> laid[a] == LaidOut(raw, HeaderSize(raw), ExactSections(raw), a)
  }

  /** How load_pe goes on once the image is mapped, when binding is harmless: it succeeds or rejects as the tables are
      well formed or not, unless an access faults; and where image_range can be trusted, it faults exactly at slots that
      may not be written. */
  ghost predicate EndsAsTold(img: Image, shims: seq<Shim>, laid: seq<u8>, outcome: Outcome)
    requires Fits(WorldOf(img, shims)) && |laid| == img.size as int
    reads img, img.prot
  {
    var w := WorldOf(img, shims);
    && (outcome == Bound <==> TablesOk(w, laid) && AllLand(w, ImportWalk(w, laid).log))
    && (outcome == Rejected <==> !TablesOk(w, laid) && AllLand(w, ImportWalk(w, laid).log))
    && (NoPhantom(img.file) ==> EndsByTables(img, shims, laid, outcome))
  }

  /** Binding touches nothing that it has stored before; so it is, by ApartTablesHaveNoHazard, when the tables are laid
      out apart. */
  ghost predicate Harmless(w: World, laid: seq<u8>)
    requires Fits(w) && |laid| == w.size
  {
    NoHazard(ImportWalk(w, laid).log)
  }

  lemma BindingTold(img: Image, shims: seq<Shim>, laid: seq<u8>)
    requires img.Mapped() && Fits(WorldOf(img, shims)) && |laid| == img.size as int
    requires Harmless(WorldOf(img, shims), laid)
    ensures var w := WorldOf(img, shims);
            EndsAsTold(img, shims, laid, RunImports(w, laid).outcome)
            && (RunImports(w, laid).outcome.Bound? && ImportRva(img.file) != 0
                ==> ExactlyBound(w, laid, ImportRva(img.file), RunImports(w, laid).mem))
  {
    hide Fits, ExactlyBound, RunImports, ImportWalk, TablesOk, AllLand, NoPhantom, EndsByTables;
    var w := WorldOf(img, shims);
    BindingEnds(w, laid);
    if NoPhantom(img.file) { BindingFaultsExactly(img, shims, laid); }
    if RunImports(w, laid).outcome.Bound? { BindingIsExact(w, laid); }
  }

  /** Everything load_pe does before it looks at thread-local storage. None: the file, a mapping or the sidecar was
      refused. Otherwise binding ran on the laid-out image; if that was harmless it ended as the tables tell, and when
      it succeeded, every slot holds what its thunk asks for and every other byte still shows the layout rule. */
  method LoadAndBind(raw: seq<u8>, refused: set<nat>, shims: seq<Shim>)
    returns (img: Image, r: Option<Outcome>, ghost laid: seq<u8>)
    ensures fresh(img) && img.file == raw
    ensures r.Some? <==> PrepareAccepts(raw) && LoaderAccepts(raw) && MapsOk(raw, refused)
    ensures CoffOffsetsFit(raw) ==> (r.Some? <==> LoaderAccepts(raw) && MapsOk(raw, refused))
    ensures r.Some? ==> img.Mapped() && ShowsLayout(img, raw, laid)
                        && Fits(WorldOf(img, shims)) && |laid| == img.size as int
                        && Run(r.value, img.bytes[..]) == RunImports(WorldOf(img, shims), laid)
    ensures r.Some? && Harmless(WorldOf(img, shims), laid) ==> EndsAsTold(img, shims, laid, r.value)
    ensures r == Some(Bound) && ImportRva(raw) == 0 ==> img.bytes[..] == laid
    ensures r == Some(Bound) && ImportRva(raw) != 0 && Harmless(WorldOf(img, shims), laid)
            ==> ExactlyBound(WorldOf(img, shims), laid, ImportRva(raw), img.bytes[..])
  {
    hide LoaderAccepts, PrepareAccepts, MapsOk, RunImports, Harmless, ExactlyBound, LaidOut, EndsAsTold, Image.Mapped;
    var ok;
    img, ok := LoadPrepared(raw, refused);
    laid := [];
    if !ok { return img, None, laid; }
    laid := img.bytes[..];
    MappedFits(img, shims);
    var outcome := BindImports(img, shims);
    r := Some(outcome);
    NoImports(WorldOf(img, shims), laid);
    if Harmless(WorldOf(img, shims), laid) { BindingTold(img, shims, laid); }
  }

  lemma NoImports(w: World, mem: seq<u8>)
    requires Fits(w) && |mem| == w.size
    ensures ImportRva(w.file) == 0 ==> RunImports(w, mem) == Run(Bound, mem)
  {
  }
}
