/**
 The dashboard shell: the light/dark theme switch, and the one browser
 storage that every service's cache keys share.
 */
module App {

  import GitHub
  import Weather

  const Dark := "dark"
  const Light := "light"

  /** The header's theme button: dark becomes light, anything else becomes dark. */
  function ToggleTheme(theme: string): (r: string)
    ensures r == Dark || r == Light
    ensures r != theme
    ensures r == Light <==> theme == Dark
  {
    if theme == Dark then Light else Dark
  }

  /** The page carries the light style exactly for the light theme. */
  predicate LightStyle(theme: string) {
    theme == Light
  }

  /** Pressing the button twice restores a stored theme, and each press flips the page style. */
  lemma ToggleThemeInvolution(theme: string)
    requires theme == Dark || theme == Light
    ensures ToggleTheme(ToggleTheme(theme)) == theme
    ensures LightStyle(ToggleTheme(theme)) == !LightStyle(theme)
  {
  }

  /** The four kinds of cache key never collide: a profile, a repository
      page, a city search and a forecast each have a prefix of their own. */
  lemma CacheNamespacesDisjoint(user: string, owner: string, perPage: int, city: string,
                                latFixed: string, lonFixed: string, unit: string)
    ensures
      var keys := [GitHub.UserKey(user), GitHub.ReposKey(owner, perPage),
                   Weather.GeoKey(city), Weather.WeatherKey(latFixed, lonFixed, unit)];
      forall i, j :: 0 <= i < j < 4 ==> keys[i] != keys[j]
  {
    var u := GitHub.UserKey(user);
    var r := GitHub.ReposKey(owner, perPage);
    var g := Weather.GeoKey(city);
    var w := Weather.WeatherKey(latFixed, lonFixed, unit);
    GitHub.UserAndReposKeysDisjoint(user, owner, perPage);
    assert u[0] == 'g' && u[1] == 'h';
    assert r[0] == 'g' && r[1] == 'h';
    assert g[0] == 'g' && g[1] == 'e';
    assert w[0] == 'w';
  }
}
