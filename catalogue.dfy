/** The catalogue of perturbations the sensitivity analysis runs, in the order
    `run_sa` runs them, with the dictionary key and the title each one is
    recorded under. */
module Parameters {
  import opened Wrappers
  import opened Tables

  /** Fields of the vehicle model data whose shares are perturbed. */
  datatype ContentField = PlasticShare | PolymerShare(p: Polymer)

  datatype LossField = Exports | UnknownWhereabouts

  /** One perturbed parameter. Vehicle ids `i` run from 1 to the number of vehicles. */
  datatype Param =
    | TotalMass(i: nat)
    | Content(field: ContentField, i: nat)
    | Cagr
    | Loss(loss: LossField)
    | DismantlingMass(p: Polymer, i: nat)
    | RecyclingEfficiency(p: Polymer)
    | ProductionEfficiency(p: Polymer)
    | MaxShare(p: Polymer)

  const ContentFields: seq<ContentField> :=
    [PlasticShare, PolymerShare(PP), PolymerShare(PA), PolymerShare(PC), PolymerShare(ABS)]

  /** The parameters `mk(1)`, ..., `mk(n)`: one block of a per-vehicle loop. */
  function PerVehicle(n: nat, mk: nat -> Param): (r: seq<Param>)
    ensures |r| == n
    ensures forall k | 0 <= k < n :: r[k] == mk(k + 1)
  {
    seq(n, (k: int) requires 0 <= k => mk(k + 1))
  }

  function ContentBlock(n: nat, f: ContentField): (r: seq<Param>)
    ensures |r| == n
    ensures forall k | 0 <= k < n :: r[k] == Content(f, k + 1)
  {
    PerVehicle(n, (i: nat) => Content(f, i))
  }

  function DismantlingBlock(n: nat, p: Polymer): (r: seq<Param>)
    ensures |r| == n
    ensures forall k | 0 <= k < n :: r[k] == DismantlingMass(p, k + 1)
  {
    PerVehicle(n, (i: nat) => DismantlingMass(p, i))
  }

  /** `run_sa`'s order: total masses; plastic, PP, PA, PC and ABS contents, each
      for every vehicle; CAGR; the two loss rates; dismantled PP, PA, PC and ABS
      masses, each for every vehicle; the four recycling efficiencies; the four
      production efficiencies; the four maximum recycled shares. */
  function Catalogue(n: nat): (r: seq<Param>)
    ensures |r| == 10 * n + 15
  {
    PerVehicle(n, (i: nat) => TotalMass(i))
    + ContentBlock(n, PlasticShare) + ContentBlock(n, PolymerShare(PP)) + ContentBlock(n, PolymerShare(PA))
    + ContentBlock(n, PolymerShare(PC)) + ContentBlock(n, PolymerShare(ABS))
    + [Cagr, Loss(Exports), Loss(UnknownWhereabouts)]
    + DismantlingBlock(n, PP) + DismantlingBlock(n, PA) + DismantlingBlock(n, PC) + DismantlingBlock(n, ABS)
    + [RecyclingEfficiency(PP), RecyclingEfficiency(PA), RecyclingEfficiency(PC), RecyclingEfficiency(ABS)]
    + [ProductionEfficiency(PP), ProductionEfficiency(PA), ProductionEfficiency(PC), ProductionEfficiency(ABS)]
    + [MaxShare(PP), MaxShare(PA), MaxShare(PC), MaxShare(ABS)]
  }

  function PolymerIndex(p: Polymer): nat {
    match p
    case PP => 0
    case PA => 1
    case PC => 2
    case ABS => 3
  }

  function FieldIndex(f: ContentField): nat {
    match f
    case PlasticShare => 0
    case PolymerShare(p) => 1 + PolymerIndex(p)
  }

  /** The parameter is one of the catalogue's for `n` vehicles. */
  predicate InCatalogue(n: nat, c: Param) {
    match c
    case TotalMass(i) => 1 <= i <= n
    case Content(_, i) => 1 <= i <= n
    case DismantlingMass(_, i) => 1 <= i <= n
    case _ => true
  }

  /** Where `c` stands in the catalogue: the index of its entry in the result
      and title lists. */
  function Position(n: nat, c: Param): int {
    match c
    case TotalMass(i) => i - 1
    case Content(f, i) => n + FieldIndex(f) * n + (i - 1)
    case Cagr => 6 * n
    case Loss(Exports) => 6 * n + 1
    case Loss(UnknownWhereabouts) => 6 * n + 2
    case DismantlingMass(p, i) => 6 * n + 3 + PolymerIndex(p) * n + (i - 1)
    case RecyclingEfficiency(p) => 10 * n + 3 + PolymerIndex(p)
    case ProductionEfficiency(p) => 10 * n + 7 + PolymerIndex(p)
    case MaxShare(p) => 10 * n + 11 + PolymerIndex(p)
  }

  /** The catalogue has `10 n + 15` entries, each a parameter of the run,
      standing at its own position. */
  lemma CatalogueLayout(n: nat)
    ensures |Catalogue(n)| == 10 * n + 15
    ensures forall k | 0 <= k < |Catalogue(n)| :: InCatalogue(n, Catalogue(n)[k]) && Position(n, Catalogue(n)[k]) == k
  {
    var cat := Catalogue(n);
    var head := PerVehicle(n, (i: nat) => TotalMass(i))
      + ContentBlock(n, PlasticShare) + ContentBlock(n, PolymerShare(PP)) + ContentBlock(n, PolymerShare(PA))
      + ContentBlock(n, PolymerShare(PC)) + ContentBlock(n, PolymerShare(ABS));
    var mid := [Cagr, Loss(Exports), Loss(UnknownWhereabouts)]
      + DismantlingBlock(n, PP) + DismantlingBlock(n, PA) + DismantlingBlock(n, PC) + DismantlingBlock(n, ABS);
    var tail := [RecyclingEfficiency(PP), RecyclingEfficiency(PA), RecyclingEfficiency(PC), RecyclingEfficiency(ABS)]
      + [ProductionEfficiency(PP), ProductionEfficiency(PA), ProductionEfficiency(PC), ProductionEfficiency(ABS)]
      + [MaxShare(PP), MaxShare(PA), MaxShare(PC), MaxShare(ABS)];
    assert cat == head + mid + tail;
    HeadLayout(n, head);
    MidLayout(n, mid);
    forall k | 0 <= k < |cat|
      ensures InCatalogue(n, cat[k]) && Position(n, cat[k]) == k
    {
      if k < 6 * n {
        assert cat[k] == head[k];
      } else if k < 10 * n + 3 {
        assert cat[k] == mid[k - 6 * n];
      } else {
        assert cat[k] == tail[k - 10 * n - 3];
      }
    }
  }

  lemma HeadLayout(n: nat, head: seq<Param>)
    requires head == PerVehicle(n, (i: nat) => TotalMass(i))
      + ContentBlock(n, PlasticShare) + ContentBlock(n, PolymerShare(PP)) + ContentBlock(n, PolymerShare(PA))
      + ContentBlock(n, PolymerShare(PC)) + ContentBlock(n, PolymerShare(ABS))
    ensures |head| == 6 * n
    ensures forall k | 0 <= k < 6 * n :: InCatalogue(n, head[k]) && Position(n, head[k]) == k
  {
    forall k | 0 <= k < 6 * n
      ensures InCatalogue(n, head[k]) && Position(n, head[k]) == k
    {
      if k < n {
        assert head[k] == TotalMass(k + 1);
      } else if k < 2 * n {
        assert head[k] == Content(PlasticShare, k - n + 1);
      } else if k < 3 * n {
        assert head[k] == Content(PolymerShare(PP), k - 2 * n + 1);
      } else if k < 4 * n {
        assert head[k] == Content(PolymerShare(PA), k - 3 * n + 1);
      } else if k < 5 * n {
        assert head[k] == Content(PolymerShare(PC), k - 4 * n + 1);
      } else {
        assert head[k] == Content(PolymerShare(ABS), k - 5 * n + 1);
      }
    }
  }

  lemma MidLayout(n: nat, mid: seq<Param>)
    requires mid == [Cagr, Loss(Exports), Loss(UnknownWhereabouts)]
      + DismantlingBlock(n, PP) + DismantlingBlock(n, PA) + DismantlingBlock(n, PC) + DismantlingBlock(n, ABS)
    ensures |mid| == 4 * n + 3
    ensures forall k | 0 <= k < 4 * n + 3 :: InCatalogue(n, mid[k]) && Position(n, mid[k]) == 6 * n + k
  {
    forall k | 0 <= k < 4 * n + 3
      ensures InCatalogue(n, mid[k]) && Position(n, mid[k]) == 6 * n + k
    {
      if k < 3 {
      } else if k < n + 3 {
        assert mid[k] == DismantlingMass(PP, k - 3 + 1);
      } else if k < 2 * n + 3 {
        assert mid[k] == DismantlingMass(PA, k - n - 3 + 1);
      } else if k < 3 * n + 3 {
        assert mid[k] == DismantlingMass(PC, k - 2 * n - 3 + 1);
      } else {
        assert mid[k] == DismantlingMass(ABS, k - 3 * n - 3 + 1);
      }
    }
  }

  /** No parameter is run twice. */
  lemma CatalogueDistinct(n: nat, a: nat, b: nat)
    requires a < b < |Catalogue(n)|
    ensures Catalogue(n)[a] != Catalogue(n)[b]
  {
    CatalogueLayout(n);
  }

  // ------------------------------------------------------------- rendering

  function Digit(d: nat): char
    requires d < 10
  {
    (('0' as int) + d) as char
  }

  /** Decimal rendering of a natural number, as Python's `str`. */
  function NatStr(n: nat): (r: string)
    ensures |r| >= 1
    decreases n
  {
    if n < 10 then [Digit(n)] else NatStr(n / 10) + [Digit(n % 10)]
  }

  function DigitValue(ch: char): nat {
    if '0' <= ch <= '9' then (ch as int) - ('0' as int) else 0
  }

  /** Value of a string of decimal digits. */
  function ParseNat(s: string): nat
    decreases |s|
  {
    if |s| == 0 then 0 else ParseNat(s[..|s| - 1]) * 10 + DigitValue(s[|s| - 1])
  }

  lemma {:induction false} ParseNatStr(n: nat)
    ensures ParseNat(NatStr(n)) == n
    decreases n
  {
    if n >= 10 {
      var s := NatStr(n);
      assert s[..|s| - 1] == NatStr(n / 10);
      ParseNatStr(n / 10);
    }
  }

  function Tag(p: Polymer): string {
    match p
    case PP => "pp"
    case PA => "pa"
    case PC => "pc"
    case ABS => "abs"
  }

  function Upper(p: Polymer): string {
    match p
    case PP => "PP"
    case PA => "PA"
    case PC => "PC"
    case ABS => "ABS"
  }

  /** The key `run_sa` files a run's tables under in `sa_tmp_plus` and `sa_tmp_minus`. */
  function Name(c: Param): string {
    match c
    case TotalMass(i) => "total_mass_vehicle_" + NatStr(i)
    case Content(PlasticShare, i) => "plastic_content_vehicle_" + NatStr(i)
    case Content(PolymerShare(p), i) => Tag(p) + "_content_vehicle_" + NatStr(i)
    case Cagr => "cagr"
    case Loss(Exports) => "exports"
    case Loss(UnknownWhereabouts) => "unknown_whereabouts"
    case DismantlingMass(p, i) => "dismantling_" + Tag(p) + "_mass_vehicle_" + NatStr(i)
    case RecyclingEfficiency(p) => "recycling_" + Tag(p) + "_efficiency"
    case ProductionEfficiency(p) => "production_" + Tag(p) + "_efficiency"
    case MaxShare(p) => "production_max_" + Tag(p)
  }

  /** The title `run_sa` appends to `sa_titles`. */
  function Title(c: Param): string {
    match c
    case TotalMass(i) => "total mass of vehicle " + NatStr(i)
    case Content(PlasticShare, i) => "plastic content of vehicle " + NatStr(i)
    case Content(PolymerShare(p), i) => Upper(p) + " content of vehicle " + NatStr(i)
    case Cagr => "CAGR"
    case Loss(Exports) => "exports"
    case Loss(UnknownWhereabouts) => "unknown whereabouts"
    case DismantlingMass(p, i) => "dismantled " + Upper(p) + " mass of vehicle " + NatStr(i)
    case RecyclingEfficiency(p) => "recycling " + Upper(p) + " efficiency"
    case ProductionEfficiency(p) => "production " + Upper(p) + " efficiency"
    case MaxShare(p) => "max recycled " + Upper(p) + " input"
  }

  // -------------------------------------------------------------- decoding

  function At(s: string, k: nat): char {
    if k < |s| then s[k] else ' '
  }

  function From(s: string, k: nat): string {
    if k <= |s| then s[k..] else ""
  }

  /** The polymer whose tag starts at position `k`. */
  function PolymerAt(s: string, k: nat): Polymer {
    if At(s, k) == 'a' then ABS
    else if At(s, k + 1) == 'a' then PA
    else if At(s, k + 1) == 'c' then PC
    else PP
  }

  /** Reads the parameter back from a key: the characters that tell the keys
      of the catalogue apart, and the vehicle id at the end. */
  function Decode(s: string): Option<Param> {
    match At(s, 0)
    case 't' => Some(TotalMass(ParseNat(From(s, 19))))
    case 'p' =>
      if At(s, 1) == 'l' then Some(Content(PlasticShare, ParseNat(From(s, 24))))
      else if At(s, 1) == 'r' then
        (if At(s, 11) == 'm' then Some(MaxShare(PolymerAt(s, 15))) else Some(ProductionEfficiency(PolymerAt(s, 11))))
      else Some(Content(PolymerShare(PolymerAt(s, 0)), ParseNat(From(s, 19))))
    case 'a' => Some(Content(PolymerShare(ABS), ParseNat(From(s, 20))))
    case 'c' => Some(Cagr)
    case 'e' => Some(Loss(Exports))
    case 'u' => Some(Loss(UnknownWhereabouts))
    case 'd' =>
      var p := PolymerAt(s, 12);
      Some(DismantlingMass(p, ParseNat(From(s, if p == ABS then 29 else 28))))
    case 'r' => Some(RecyclingEfficiency(PolymerAt(s, 10)))
    case _ => None
  }

  lemma SuffixOf(prefix: string, rest: string)
    ensures From(prefix + rest, |prefix|) == rest
  {
    assert (prefix + rest)[|prefix|..] == rest;
  }

  lemma DecodeNumbered(prefix: string, i: nat)
    ensures |prefix| > 0 ==> At(prefix + NatStr(i), 0) == prefix[0]
    ensures ParseNat(From(prefix + NatStr(i), |prefix|)) == i
  {
    SuffixOf(prefix, NatStr(i));
    ParseNatStr(i);
  }

  lemma DecodeContent(f: ContentField, i: nat)
    requires f.PolymerShare?
    ensures Decode(Name(Content(f, i))) == Some(Content(f, i))
  {
    var prefix := Tag(f.p) + "_content_vehicle_";
    var s := prefix + NatStr(i);
    assert Name(Content(f, i)) == s;
    DecodeNumbered(prefix, i);
    assert At(s, 0) == prefix[0] && At(s, 1) == prefix[1];
    match f.p
    case PP =>
    case PA =>
    case PC =>
    case ABS => assert |prefix| == 20;
  }

  lemma DecodeDismantling(p: Polymer, i: nat)
    ensures Decode(Name(DismantlingMass(p, i))) == Some(DismantlingMass(p, i))
  {
    var prefix := "dismantling_" + Tag(p) + "_mass_vehicle_";
    var s := prefix + NatStr(i);
    assert Name(DismantlingMass(p, i)) == s;
    DecodeNumbered(prefix, i);
    assert At(s, 0) == 'd' && At(s, 12) == prefix[12] && At(s, 13) == prefix[13];
    assert PolymerAt(s, 12) == p;
  }

  lemma DecodeTotalMass(i: nat)
    ensures Decode(Name(TotalMass(i))) == Some(TotalMass(i))
  {
    var prefix := "total_mass_vehicle_";
    assert Name(TotalMass(i)) == prefix + NatStr(i);
    DecodeNumbered(prefix, i);
  }

  lemma DecodePlastic(i: nat)
    ensures Decode(Name(Content(PlasticShare, i))) == Some(Content(PlasticShare, i))
  {
    var prefix := "plastic_content_vehicle_";
    var s := prefix + NatStr(i);
    assert Name(Content(PlasticShare, i)) == s;
    DecodeNumbered(prefix, i);
    assert At(s, 1) == 'l';
  }

  lemma DecodePolymerParam(c: Param)
    requires c.RecyclingEfficiency? || c.ProductionEfficiency? || c.MaxShare?
    ensures Decode(Name(c)) == Some(c)
  {
    var s := Name(c);
    match c
    case RecyclingEfficiency(p) =>
      assert s == "recycling_" + Tag(p) + "_efficiency";
      assert At(s, 0) == 'r' && At(s, 10) == Tag(p)[0] && At(s, 11) == Tag(p)[1];
    case ProductionEfficiency(p) =>
      assert s == "production_" + Tag(p) + "_efficiency";
      assert At(s, 0) == 'p' && At(s, 1) == 'r' && At(s, 11) == Tag(p)[0] && At(s, 12) == Tag(p)[1];
    case MaxShare(p) =>
      assert s == "production_max_" + Tag(p);
      assert At(s, 0) == 'p' && At(s, 1) == 'r' && At(s, 11) == 'm' && At(s, 15) == Tag(p)[0] && At(s, 16) == Tag(p)[1];
  }

  /** Every key reads back as the parameter it was made from. */
  lemma DecodeName(c: Param)
    ensures Decode(Name(c)) == Some(c)
  {
    match c
    case TotalMass(i) => DecodeTotalMass(i);
    case Content(PlasticShare, i) => DecodePlastic(i);
    case Content(f, i) => DecodeContent(f, i);
    case Cagr =>
    case Loss(_) =>
    case DismantlingMass(p, i) => DecodeDismantling(p, i);
    case RecyclingEfficiency(_) => DecodePolymerParam(c);
    case ProductionEfficiency(_) => DecodePolymerParam(c);
    case MaxShare(_) => DecodePolymerParam(c);
  }

  /** Different parameters are filed under different keys. */
  lemma NameInjective(a: Param, b: Param)
    requires Name(a) == Name(b)
    ensures a == b
  {
    DecodeName(a);
    DecodeName(b);
  }
}
