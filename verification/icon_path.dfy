/**
 * Icon path resolution of `getIcon.ts`: the catalog lookup by exact name,
 * the base-version/alias decision, the CDN-relative path, and the error
 * chosen when resolution fails.
 */
module IconPath {
  import opened Wrappers
  import opened JsText
  import opened JsArray

  /** The recognised variant names, in the order the error hint tries them. */
  const Variants: seq<string> := [
    "original",
    "plain",
    "line",
    "original-wordmark",
    "plain-wordmark",
    "line-wordmark"
  ]

  /** An alternate variant name and the base version it stands for. */
  datatype Alias = Alias(base: string, alias: string)

  /** One catalog entry: its name, the `versions.svg` list and its aliases. */
  datatype DevIcon = DevIcon(name: string, svg: seq<string>, aliases: seq<Alias>)

  /** Every error the resolve-and-fetch pipeline can throw. */
  datatype Err =
    | VariantInName(suggestedName: string, variant: string)  // the name ends with a variant
    | InvalidVariant(version: string)                        // the version is not a known variant
    | IconNotFound(name: string, version: string)            // no such icon or no such version
    | FetchFailed(url: string)                               // the fetch promise rejected
    | SvgNotMatched(name: string, version: string)           // ICON_REGEX did not match the body

  /** The errors produced by `genError`. */
  predicate IsResolveError(e: Err) {
    e.VariantInName? || e.InvalidVariant? || e.IconNotFound?
  }

  /** The name ends with one of the recognised variants. */
  predicate HasVariantSuffix(name: string) {
    exists k :: 0 <= k < |Variants| && EndsWith(name, Variants[k])
  }

  /** `variants.find(v => name.endsWith(v))`, as a position in `Variants`. */
  function FirstVariantSuffix(name: string): (r: Option<nat>)
    ensures r.Some? ==> r.value < |Variants| && EndsWith(name, Variants[r.value])
    ensures r.Some? ==> forall j :: 0 <= j < r.value ==> !EndsWith(name, Variants[j])
    ensures r.None? <==> !HasVariantSuffix(name)
  {
    FindIndex(Variants, (v: string) => EndsWith(name, v))
  }

  /**
   * `genError`: the error thrown when a name/version pair does not resolve.
   * A name ending in a variant gets a hint naming the first such variant and
   * the name without it; otherwise the version decides between "invalid
   * variant" and "not found".
   */
  function GenError(name: string, version: string): (e: Err)
    ensures IsResolveError(e)
    ensures e.VariantInName? <==> HasVariantSuffix(name)
    ensures e.VariantInName? ==>
              exists k :: 0 <= k < |Variants| && e.variant == Variants[k] && EndsWith(name, Variants[k])
                          && forall j :: 0 <= j < k ==> !EndsWith(name, Variants[j])
    ensures e.VariantInName? ==> e.suggestedName == StripTrailingDash(RemoveFirst(name, e.variant))
    ensures e.InvalidVariant? <==> !HasVariantSuffix(name) && version !in Variants
    ensures e.InvalidVariant? ==> e.version == version
    ensures e.IconNotFound? ==> e == IconNotFound(name, version) && version in Variants
  {
    match FirstVariantSuffix(name)
    case Some(k) =>
      VariantInName(StripTrailingDash(RemoveFirst(name, Variants[k])), Variants[k])
    case None =>
      if version !in Variants then InvalidVariant(version)
      else IconNotFound(name, version)
  }

  /** The CDN-relative path of one SVG file. */
  function SvgPath(name: string, variant: string): (p: string)
    ensures |p| == 2 * |name| + |variant| + 6
    ensures p[..2 * |name| + 2] == name + "/" + name + "-" && p[|p| - 4..] == ".svg"
    ensures p[2 * |name| + 2..|p| - 4] == variant
  {
    name + "/" + name + "-" + variant + ".svg"
  }

  /** Different variants of one icon are different files. */
  lemma SvgPathInjective(name: string, v1: string, v2: string)
    requires SvgPath(name, v1) == SvgPath(name, v2)
    ensures v1 == v2
  {
    var p := SvgPath(name, v1);
    assert |v1| == |v2|;
    assert v1 == p[2 * |name| + 2..|p| - 4] == v2;
  }

  /** `devIconsJson.find(i => i.name === name)`: the first entry with exactly this name. */
  function Lookup(catalog: seq<DevIcon>, name: string): (r: Option<DevIcon>)
    ensures r.Some? ==>
              exists i :: 0 <= i < |catalog| && catalog[i] == r.value && r.value.name == name
                          && forall j :: 0 <= j < i ==> catalog[j].name != name
    ensures r.None? <==> forall i :: 0 <= i < |catalog| ==> catalog[i].name != name
  {
    match FindIndex(catalog, (i: DevIcon) => i.name == name)
    case None => None
    case Some(i) => Some(catalog[i])
  }

  /** `targetIcon.aliases.find(a => a.alias === version)` */
  function FindAlias(aliases: seq<Alias>, version: string): (r: Option<Alias>)
    ensures r.Some? ==>
              exists k :: 0 <= k < |aliases| && aliases[k] == r.value && r.value.alias == version
                          && forall j :: 0 <= j < k ==> aliases[j].alias != version
    ensures r.None? <==> forall k :: 0 <= k < |aliases| ==> aliases[k].alias != version
  {
    match FindIndex(aliases, (a: Alias) => a.alias == version)
    case None => None
    case Some(k) => Some(aliases[k])
  }

  /**
   * `getUrlPath`: the path of the SVG for `name` in `version`. The version is
   * used as given when it is a property key of `versions.svg` (the `in` test);
   * otherwise the first alias spelled `version` supplies the base version.
   * Every failure is the error `genError` picks.
   */
  function GetUrlPath(catalog: seq<DevIcon>, name: string, version: string): (r: Result<string, Err>)
    ensures r.Failure? ==> r.error == GenError(name, version)
    ensures (forall i :: 0 <= i < |catalog| ==> catalog[i].name != name) ==> r.Failure?
    ensures Lookup(catalog, name).Some? ==>
              var icon := Lookup(catalog, name).value;
              HasProperty(icon.svg, version) ==> r == Success(SvgPath(name, version))
    ensures Lookup(catalog, name).Some? ==>
              var icon := Lookup(catalog, name).value;
              !HasProperty(icon.svg, version) ==>
                (r.Success? <==> exists a :: a in icon.aliases && a.alias == version)
    ensures r.Success? ==>
              var icon := Lookup(catalog, name).value;
              !HasProperty(icon.svg, version) ==>
                exists k :: 0 <= k < |icon.aliases| && icon.aliases[k].alias == version
                            && (forall j :: 0 <= j < k ==> icon.aliases[j].alias != version)
                            && r.value == SvgPath(name, icon.aliases[k].base)
  {
    match Lookup(catalog, name)
    case None => Failure(GenError(name, version))
    case Some(icon) =>
      if HasProperty(icon.svg, version) then Success(SvgPath(name, version))
      else match FindAlias(icon.aliases, version)
        case None => Failure(GenError(name, version))
        case Some(a) => Success(SvgPath(name, a.base))
  }

  // ---------------------------------------------------------------------
  // Consequences of the `in` test on `versions.svg`
  // ---------------------------------------------------------------------

  /** No recognised variant name is a property key of any array. */
  lemma VariantIsNeverArrayKey<T>(arr: seq<T>, v: string)
    requires v in Variants
    ensures !HasProperty(arr, v)
  {
    assert !IsDigit(v[0]);
    assert v[0] == 'o' || (v[0] == 'p' && (|v| == 5 || |v| == 14)) || (v[0] == 'l' && (|v| == 4 || |v| == 13));
    NotInheritedByShape(v);
  }

  /**
   * Asking for a recognised variant never takes the base-version branch:
   * it resolves exactly when the icon has an alias with that spelling, even
   * when the variant is listed in `versions.svg`.
   */
  lemma VariantResolvesOnlyThroughAlias(catalog: seq<DevIcon>, name: string, v: string)
    requires v in Variants
    requires Lookup(catalog, name).Some?
    ensures GetUrlPath(catalog, name, v).Success? <==>
              exists a :: a in Lookup(catalog, name).value.aliases && a.alias == v
  {
    VariantIsNeverArrayKey(Lookup(catalog, name).value.svg, v);
  }

  /** Every element position of `versions.svg`, spelled in decimal, resolves to a path of its own. */
  lemma IndexKeyResolves(catalog: seq<DevIcon>, name: string, i: nat)
    requires Lookup(catalog, name).Some?
    requires i < |Lookup(catalog, name).value.svg|
    ensures GetUrlPath(catalog, name, NatToString(i)) == Success(SvgPath(name, NatToString(i)))
  {
    NatToStringRoundTrip(i);
  }

  /**
   * An icon whose only base version is "original" and that has no aliases:
   * "original" does not resolve, while "0" yields the path of a file named
   * after the index.
   */
  lemma BaseVersionWithoutAliasFails()
    ensures GetUrlPath([DevIcon("go", ["original"], [])], "go", "original")
            == Failure(IconNotFound("go", "original"))
    ensures GetUrlPath([DevIcon("go", ["original"], [])], "go", "0") == Success("go/go-0.svg")
  {
    var catalog := [DevIcon("go", ["original"], [])];
    assert catalog[0].name == "go";
    assert Lookup(catalog, "go") == Some(catalog[0]);
    VariantIsNeverArrayKey(catalog[0].svg, "original");
    assert DigitsValue("0") == 0;
    assert IsIndexKey("0", 1);
    assert HasProperty(catalog[0].svg, "0");
    assert SvgPath("go", "0") == "go/go-0.svg";
    assert !HasVariantSuffix("go");
  }

  /**
   * The hint is given whenever the name ends with a variant, even when the
   * icon exists and only the version failed to resolve.
   */
  lemma KnownIconGetsVariantHint(catalog: seq<DevIcon>, name: string, version: string)
    requires Lookup(catalog, name).Some?
    requires HasVariantSuffix(name)
    requires GetUrlPath(catalog, name, version).Failure?
    ensures GetUrlPath(catalog, name, version).error.VariantInName?
    ensures !HasProperty(Lookup(catalog, name).value.svg, version)
  {
  }

  /** The existing icon "xline" asked for "plain" is told that its name holds the variant "line". */
  lemma ExistingIconNamedLikeVariant()
    ensures GetUrlPath([DevIcon("xline", ["original"], [])], "xline", "plain")
            == Failure(VariantInName("x", "line"))
  {
    var catalog := [DevIcon("xline", ["original"], [])];
    assert catalog[0].name == "xline";
    assert Lookup(catalog, "xline") == Some(catalog[0]);
    VariantIsNeverArrayKey(catalog[0].svg, "plain");
    XlineHint();
  }

  /** The hint for "xline" names "x" and the variant "line", whatever the version. */
  lemma XlineHint()
    ensures GenError("xline", "plain") == VariantInName("x", "line")
  {
    XlineFirstSuffix();
    XlineStem();
    assert StripTrailingDash("x") == "x";
  }

  /** Removing the first "line" from "xline" leaves "x". */
  lemma XlineStem()
    ensures RemoveFirst("xline", "line") == "x"
  {
    var name := "xline";
    assert !OccursAt(name, "line", 0) by { assert name[0] != 'l'; }
    assert OccursAt(name, "line", 1);
    assert IndexOf(name, "line") == Some(1);
    assert name[..1] + name[5..] == "x";
  }

  /** "line" is the first variant "xline" ends with. */
  lemma XlineFirstSuffix()
    ensures FirstVariantSuffix("xline") == Some(2)
  {
    var name := "xline";
    LastCharRulesOutSuffix(name, Variants[0]);
    LastCharRulesOutSuffix(name, Variants[1]);
    assert name == "x" + Variants[2];
    EndsWithAppended("x", Variants[2]);
    FirstVariantSuffixAt(name, 2);
  }

  // ---------------------------------------------------------------------
  // The suggested name in the "variant included with the name" error
  // ---------------------------------------------------------------------

  /**
   * When the matched variant occurs in the name only as its suffix, the
   * suggestion and the variant rebuild the name, with or without the dash
   * that joined them.
   */
  lemma SuggestionRebuildsName(name: string, version: string)
    requires GenError(name, version).VariantInName?
    requires forall j :: 0 <= j < |name| - |GenError(name, version).variant| ==>
               !OccursAt(name, GenError(name, version).variant, j)
    ensures var e := GenError(name, version);
            name == e.suggestedName + "-" + e.variant || name == e.suggestedName + e.variant
  {
    var e := GenError(name, version);
    RemoveFirstOfSoleSuffix(name, e.variant);
    var stem := RemoveFirst(name, e.variant);
    if EndsWith(stem, "-") {
      assert e.suggestedName + "-" == stem;
    }
  }

  /**
   * When the variant at position `k` is a suffix of the name and none
   * before it is, the hint reports position `k`.
   */
  lemma FirstVariantSuffixAt(name: string, k: nat)
    requires k < |Variants| && EndsWith(name, Variants[k])
    requires forall j :: 0 <= j < k ==> !EndsWith(name, Variants[j])
    ensures FirstVariantSuffix(name) == Some(k)
  {
  }

  /** "typescript-original-wordmark" ends in 'k', unlike "original", "plain" and "line". */
  lemma WordmarkMissesShortVariants()
    ensures forall j :: 0 <= j < 3 ==> !EndsWith("typescript-original-wordmark", Variants[j])
  {
    var name := "typescript-original-wordmark";
    assert name[|name| - 1] == 'k';
    LastCharRulesOutSuffix(name, "original");
    LastCharRulesOutSuffix(name, "plain");
    LastCharRulesOutSuffix(name, "line");
  }

  /** "original-wordmark" is the first variant "typescript-original-wordmark" ends with. */
  lemma WordmarkIsFirstSuffix()
    ensures FirstVariantSuffix("typescript-original-wordmark") == Some(3)
  {
    WordmarkMissesShortVariants();
    EndsWithAppended("typescript-", "original-wordmark");
    assert "typescript-" + "original-wordmark" == "typescript-original-wordmark";
    FirstVariantSuffixAt("typescript-original-wordmark", 3);
  }

  /** "original-wordmark" first occurs in "typescript-original-wordmark" after "typescript-". */
  lemma WordmarkFirstOccurrence()
    ensures IndexOf("typescript-original-wordmark", "original-wordmark") == Some(11)
  {
    var name := "typescript-original-wordmark";
    assert OccursAt(name, "original-wordmark", 11);
    forall j | 0 <= j < 11 ensures !OccursAt(name, "original-wordmark", j) {
      assert name[j] != 'o';
      if j + 17 <= |name| {
        assert name[j..j + 17][0] == name[j];
      }
    }
  }

  /** Removing the variant from "typescript-original-wordmark" leaves "typescript-". */
  lemma WordmarkStem()
    ensures RemoveFirst("typescript-original-wordmark", "original-wordmark") == "typescript-"
  {
    var name := "typescript-original-wordmark";
    WordmarkFirstOccurrence();
    assert RemoveFirst(name, "original-wordmark") == name[..11] + name[28..];
  }

  /** The hint for a name that joins an icon name and a wordmark variant. */
  lemma WordmarkHint()
    ensures GenError("typescript-original-wordmark", "original")
            == VariantInName("typescript", "original-wordmark")
  {
    WordmarkIsFirstSuffix();
    WordmarkStem();
    assert StripTrailingDash("typescript-") == "typescript";
  }

  /**
   * Only the first occurrence of the variant is removed, which need not be
   * the suffix that matched: "line-line" is answered with "-line".
   */
  lemma FirstOccurrenceIsRemoved()
    ensures GenError("line-line", "line") == VariantInName("-line", "line")
  {
    LineLineFirstSuffix();
    LineLineStem();
    assert StripTrailingDash("-line") == "-line";
  }

  /** "line" is the first variant "line-line" ends with. */
  lemma LineLineFirstSuffix()
    ensures FirstVariantSuffix("line-line") == Some(2)
  {
    var name := "line-line";
    LastCharRulesOutSuffix(name, Variants[0]);
    LastCharRulesOutSuffix(name, Variants[1]);
    assert name == "line-" + Variants[2];
    EndsWithAppended("line-", Variants[2]);
    FirstVariantSuffixAt(name, 2);
  }

  /** Removing the first "line" from "line-line" leaves "-line". */
  lemma LineLineStem()
    ensures RemoveFirst("line-line", "line") == "-line"
  {
    var name := "line-line";
    assert OccursAt(name, "line", 0);
    assert IndexOf(name, "line") == Some(0);
    assert name[4..] == "-line";
  }
}
