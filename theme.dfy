/** `getThemeValue`: the key of the stylesheet to apply, from the chosen theme
    ("system", "light", "dark" or a previously stored key), the system's
    theme and the custom theme. `prefix` is the application's custom-theme
    prefix constant. */
module Theme {
  import opened Common

  /** JavaScript `String.prototype.includes`. */
  function Contains(s: string, part: string): bool
    decreases |s|
  {
    if |part| > |s| then false
    else if s[..|part|] == part then true
    else Contains(s[1..], part)
  }

  /** An occurrence of `part` at any index makes `Contains` true. */
  lemma {:induction false} ContainsAt(s: string, part: string, i: nat)
    requires i + |part| <= |s| && s[i..i + |part|] == part
    ensures Contains(s, part)
  {
    if i > 0 && s[..|part|] != part {
      assert s[1..][i - 1..i - 1 + |part|] == part;
      ContainsAt(s[1..], part, i - 1);
    }
  }

  /** `theme === "system" ? systemTheme : theme`, with the defaults "system"
      for `theme` and "light" for `systemTheme`. */
  function Requested(theme: Option<string>, systemTheme: Option<string>): string {
    if theme.GetOr("system") == "system" then systemTheme.GetOr("light") else theme.value
  }

  /** The base theme once a stored custom key collapses to "dark" (it carries
      the "__" separator) or "light" (it does not). */
  function BaseTheme(requested: string, prefix: string): string {
    if Contains(requested, prefix) then
      (if Contains(requested, "__") then "dark" else "light")
    else requested
  }

  function GetThemeValue(theme: Option<string>, systemTheme: Option<string>, customTheme: string, prefix: string): (r: string)
    ensures |r| >= |customTheme| && r[|r| - |customTheme|..] == customTheme
    ensures r == customTheme ||
      (|r| >= |customTheme| + 2 && r[|r| - |customTheme| - 2..|r| - |customTheme|] == "__")
  {
    var base := BaseTheme(Requested(theme, systemTheme), prefix);
    if base == "light" then customTheme else base + "__" + customTheme
  }

  /** A string without an underscore carries no "__" separator. */
  lemma {:induction false} NoUnderscoreNoSeparator(s: string)
    requires forall i | 0 <= i < |s| :: s[i] != '_'
    ensures !Contains(s, "__")
  {
    if |s| >= 2 {
      assert s[..2][0] == s[0];
      NoUnderscoreNoSeparator(s[1..]);
    }
  }

  /** "light" carries no "__" separator, so it never collapses to "dark". */
  lemma LightHasNoSeparator()
    ensures !Contains("light", "__")
  {
    NoUnderscoreNoSeparator("light");
  }

  /** With no arguments but the custom theme, the custom theme itself. */
  lemma ThemeDefaults(customTheme: string, prefix: string)
    ensures GetThemeValue(None, None, customTheme, prefix) == customTheme
  {
    LightHasNoSeparator();
  }

  /** "system" is replaced by the system theme before any other rule. */
  lemma SystemThemeFirst(systemTheme: string, customTheme: string, prefix: string)
    requires systemTheme != "system"
    ensures GetThemeValue(Some("system"), Some(systemTheme), customTheme, prefix) ==
            GetThemeValue(Some(systemTheme), None, customTheme, prefix)
  {
  }

  /** A light request yields exactly the custom theme. */
  lemma LightIsCustom(theme: Option<string>, systemTheme: Option<string>, customTheme: string, prefix: string)
    requires Requested(theme, systemTheme) == "light"
    ensures GetThemeValue(theme, systemTheme, customTheme, prefix) == customTheme
  {
    LightHasNoSeparator();
  }

  /** A request free of the prefix other than "light" is joined to the custom
      theme with "__"; "dark" gives "dark__" + customTheme. */
  lemma PlainRequest(theme: Option<string>, systemTheme: Option<string>, customTheme: string, prefix: string)
    requires !Contains(Requested(theme, systemTheme), prefix)
    requires Requested(theme, systemTheme) != "light"
    ensures GetThemeValue(theme, systemTheme, customTheme, prefix) ==
            Requested(theme, systemTheme) + "__" + customTheme
  {
  }

  /** A stored custom key collapses: to "dark__" + customTheme when it carries
      "__", to the custom theme otherwise. */
  lemma PrefixedRequest(theme: Option<string>, systemTheme: Option<string>, customTheme: string, prefix: string)
    requires Contains(Requested(theme, systemTheme), prefix)
    ensures GetThemeValue(theme, systemTheme, customTheme, prefix) ==
            if Contains(Requested(theme, systemTheme), "__") then "dark__" + customTheme else customTheme
  {
  }

  /** `prefix + "__theme"` resolves to "dark__" + customTheme, not to "dark". */
  lemma {:induction false} PrefixedSeparatorTheme(customTheme: string, prefix: string)
    ensures GetThemeValue(Some(prefix + "__theme"), None, customTheme, prefix) == "dark__" + customTheme
  {
    var t := prefix + "__theme";
    assert t != "system" by {
      assert |t| == |prefix| + 7;
    }
    assert Requested(Some(t), None) == t;
    ContainsAt(t, prefix, 0);
    assert t[|prefix|..|prefix| + 2] == "__";
    ContainsAt(t, "__", |prefix|);
  }

  /** `prefix + "theme"`, with no separator, resolves to the custom theme. */
  lemma {:induction false} PrefixedPlainTheme(customTheme: string, prefix: string)
    requires !Contains(prefix + "theme", "__")
    ensures GetThemeValue(Some(prefix + "theme"), None, customTheme, prefix) == customTheme
  {
    var t := prefix + "theme";
    if t != "system" {
      assert t[0..|prefix|] == prefix;
      ContainsAt(t, prefix, 0);
    }
  }
}
