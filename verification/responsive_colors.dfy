/**
 * `getResponsiveColors` of `color.ts`: resolve the background options, then
 * decide for the light and for the dark background, each on its own,
 * whether the icon's colour is kept or replaced by a fallback.
 *
 * The colour library (parsing, the WCAG 2.1 contrast ratio, `toString`) is
 * not modelled; it enters as the three functions of a `ColorLib`.
 */
module ResponsiveColors {
  import opened Wrappers

  /** The optional settings object; an absent field is `None`. */
  datatype ColorObject = ColorObject(
    bgLight: Option<string>,
    bgDark: Option<string>,
    minContrastDark: Option<real>,
    minContrastLight: Option<real>,
    fallbackDark: Option<string>,
    fallbackLight: Option<string>)

  /** The `bgColors` argument: `true` or a settings object. */
  datatype BgColors = DefaultPalette | Custom(config: ColorObject)

  /** Every option with its default filled in. */
  datatype Settings = Settings(
    bgLight: string,
    bgDark: string,
    minContrastLight: real,
    minContrastDark: real,
    fallbackLight: string,
    fallbackDark: string)

  /** The returned pair: the colour to draw on a dark and on a light background. */
  datatype Colors = Colors(fallbackDark: string, fallbackLight: string)

  /**
   * The colour library: `new Color(s)` (which throws on a string it cannot
   * read), `bg.contrastWCAG21(fg)` and `color.toString()`.
   */
  datatype ColorLib<!C> = ColorLib(parse: string -> Option<C>, contrast: (C, C) -> real, show: C -> string)

  /** `new Color(input)` threw. */
  datatype ColorError = Unparsable(input: string)

  const White: string := "#fff"
  const Black: string := "#000"
  const DefaultMinContrast: real := 3.0

  /** A settings object with every field absent. */
  const NoOptions: ColorObject := ColorObject(None, None, None, None, None, None)

  /**
   * The option defaults. `true` selects a white light background, a black
   * dark background, threshold 3 on both and the fallbacks black (on light)
   * and white (on dark); an object overrides each of these field by field.
   */
  function Resolve(bg: BgColors): (s: Settings)
    ensures bg.DefaultPalette? ==> s == Settings(White, Black, DefaultMinContrast, DefaultMinContrast, Black, White)
    ensures bg.Custom? ==>
              && (bg.config.bgLight.Some? ==> s.bgLight == bg.config.bgLight.value)
              && (bg.config.bgLight.None? ==> s.bgLight == White)
              && (bg.config.bgDark.Some? ==> s.bgDark == bg.config.bgDark.value)
              && (bg.config.bgDark.None? ==> s.bgDark == Black)
              && (bg.config.minContrastLight.Some? ==> s.minContrastLight == bg.config.minContrastLight.value)
              && (bg.config.minContrastLight.None? ==> s.minContrastLight == DefaultMinContrast)
              && (bg.config.minContrastDark.Some? ==> s.minContrastDark == bg.config.minContrastDark.value)
              && (bg.config.minContrastDark.None? ==> s.minContrastDark == DefaultMinContrast)
              && (bg.config.fallbackLight.Some? ==> s.fallbackLight == bg.config.fallbackLight.value)
              && (bg.config.fallbackLight.None? ==> s.fallbackLight == Black)
              && (bg.config.fallbackDark.Some? ==> s.fallbackDark == bg.config.fallbackDark.value)
              && (bg.config.fallbackDark.None? ==> s.fallbackDark == White)
  {
    match bg
    case DefaultPalette =>
      Settings(White, Black, DefaultMinContrast, DefaultMinContrast, Black, White)
    case Custom(o) =>
      Settings(
        o.bgLight.GetOr(White),
        o.bgDark.GetOr(Black),
        o.minContrastLight.GetOr(DefaultMinContrast),
        o.minContrastDark.GetOr(DefaultMinContrast),
        o.fallbackLight.GetOr(Black),
        o.fallbackDark.GetOr(White))
  }

  /** The colour for one background: the fallback when the contrast falls short of the threshold. */
  function Pick(contrast: real, threshold: real, fallback: string, own: string): (c: string)
    ensures c == fallback || c == own
    ensures contrast < threshold ==> c == fallback
    ensures contrast >= threshold ==> c == own
  {
    if contrast < threshold then fallback else own
  }

  /**
   * `getResponsiveColors`. The icon colour is read first, then the light and
   * the dark background; the first string the library cannot read is the
   * error. Otherwise each background keeps the icon colour (as the library
   * prints it) when its contrast reaches the threshold and takes its
   * fallback when it does not.
   */
  function GetResponsiveColors<C>(lib: ColorLib<C>, bg: BgColors, icoColor: string): (r: Result<Colors, ColorError>)
    ensures var s := Resolve(bg);
            r.Success? <==> lib.parse(icoColor).Some? && lib.parse(s.bgLight).Some? && lib.parse(s.bgDark).Some?
    ensures var s := Resolve(bg);
            && (lib.parse(icoColor).None? ==> r == Failure(Unparsable(icoColor)))
            && (lib.parse(icoColor).Some? && lib.parse(s.bgLight).None? ==> r == Failure(Unparsable(s.bgLight)))
            && (lib.parse(icoColor).Some? && lib.parse(s.bgLight).Some? && lib.parse(s.bgDark).None? ==>
                  r == Failure(Unparsable(s.bgDark)))
    ensures r.Success? ==>
              var s := Resolve(bg);
              var icon := lib.parse(icoColor).value;
              var light := lib.parse(s.bgLight).value;
              var dark := lib.parse(s.bgDark).value;
              && (lib.contrast(light, icon) < s.minContrastLight ==> r.value.fallbackLight == s.fallbackLight)
              && (lib.contrast(light, icon) >= s.minContrastLight ==> r.value.fallbackLight == lib.show(icon))
              && (lib.contrast(dark, icon) < s.minContrastDark ==> r.value.fallbackDark == s.fallbackDark)
              && (lib.contrast(dark, icon) >= s.minContrastDark ==> r.value.fallbackDark == lib.show(icon))
  {
    var s := Resolve(bg);
    match lib.parse(icoColor)
    case None => Failure(Unparsable(icoColor))
    case Some(icon) =>
      match lib.parse(s.bgLight)
      case None => Failure(Unparsable(s.bgLight))
      case Some(light) =>
        match lib.parse(s.bgDark)
        case None => Failure(Unparsable(s.bgDark))
        case Some(dark) =>
          var fallbackLight := Pick(lib.contrast(light, icon), s.minContrastLight, s.fallbackLight, lib.show(icon));
          var fallbackDark := Pick(lib.contrast(dark, icon), s.minContrastDark, s.fallbackDark, lib.show(icon));
          Success(Colors(fallbackDark, fallbackLight))
  }

  /** Passing `true` behaves exactly like passing an empty settings object. */
  lemma DefaultPaletteIsEmptyObject<C>(lib: ColorLib<C>, icoColor: string)
    ensures GetResponsiveColors(lib, DefaultPalette, icoColor) == GetResponsiveColors(lib, Custom(NoOptions), icoColor)
  {
    assert Resolve(DefaultPalette) == Resolve(Custom(NoOptions));
  }

  /** With `true`, the light colour is black or the icon's own, and the dark one white or the icon's own. */
  lemma DefaultPaletteFallbacks<C>(lib: ColorLib<C>, icoColor: string)
    requires GetResponsiveColors(lib, DefaultPalette, icoColor).Success?
    ensures var c := GetResponsiveColors(lib, DefaultPalette, icoColor).value;
            var own := lib.show(lib.parse(icoColor).value);
            && (c.fallbackLight == Black || c.fallbackLight == own)
            && (c.fallbackDark == White || c.fallbackDark == own)
  {
  }

  /** The light-background inputs of a settings object agree. */
  predicate SameLightInputs(a: ColorObject, b: ColorObject) {
    a.bgLight == b.bgLight && a.minContrastLight == b.minContrastLight && a.fallbackLight == b.fallbackLight
  }

  /** The dark-background inputs of a settings object agree. */
  predicate SameDarkInputs(a: ColorObject, b: ColorObject) {
    a.bgDark == b.bgDark && a.minContrastDark == b.minContrastDark && a.fallbackDark == b.fallbackDark
  }

  /** The light colour depends on the light-background options only. */
  lemma LightIgnoresDarkOptions<C>(lib: ColorLib<C>, a: ColorObject, b: ColorObject, icoColor: string)
    requires SameLightInputs(a, b)
    requires GetResponsiveColors(lib, Custom(a), icoColor).Success?
    requires GetResponsiveColors(lib, Custom(b), icoColor).Success?
    ensures GetResponsiveColors(lib, Custom(a), icoColor).value.fallbackLight
            == GetResponsiveColors(lib, Custom(b), icoColor).value.fallbackLight
  {
  }

  /** The dark colour depends on the dark-background options only. */
  lemma DarkIgnoresLightOptions<C>(lib: ColorLib<C>, a: ColorObject, b: ColorObject, icoColor: string)
    requires SameDarkInputs(a, b)
    requires GetResponsiveColors(lib, Custom(a), icoColor).Success?
    requires GetResponsiveColors(lib, Custom(b), icoColor).Success?
    ensures GetResponsiveColors(lib, Custom(a), icoColor).value.fallbackDark
            == GetResponsiveColors(lib, Custom(b), icoColor).value.fallbackDark
  {
  }

  /**
   * Raising a threshold never brings the icon colour back: if the fallback
   * is chosen for the light background, it is still chosen under any
   * higher light threshold.
   */
  lemma LightFallbackPersistsUnderHigherThreshold<C>(lib: ColorLib<C>, o: ColorObject, t: real, icoColor: string)
    requires t >= Resolve(Custom(o)).minContrastLight
    requires GetResponsiveColors(lib, Custom(o), icoColor).Success?
    requires var s := Resolve(Custom(o));
             lib.contrast(lib.parse(s.bgLight).value, lib.parse(icoColor).value) < s.minContrastLight
    ensures GetResponsiveColors(lib, Custom(o.(minContrastLight := Some(t))), icoColor).value.fallbackLight
            == Resolve(Custom(o)).fallbackLight
  {
  }

  /**
   * Raising a threshold never brings the icon colour back on the dark
   * background either.
   */
  lemma DarkFallbackPersistsUnderHigherThreshold<C>(lib: ColorLib<C>, o: ColorObject, t: real, icoColor: string)
    requires t >= Resolve(Custom(o)).minContrastDark
    requires GetResponsiveColors(lib, Custom(o), icoColor).Success?
    requires var s := Resolve(Custom(o));
             lib.contrast(lib.parse(s.bgDark).value, lib.parse(icoColor).value) < s.minContrastDark
    ensures GetResponsiveColors(lib, Custom(o.(minContrastDark := Some(t))), icoColor).value.fallbackDark
            == Resolve(Custom(o)).fallbackDark
  {
  }
}
