/** The extension's internal page paths (src/utils/urls.ts). */
module Urls {
  import opened Opt

  const PagePrefix: string := "page/"
  const PopupPrefix: string := "popup/"
  const OptionsPrefix: string := "options/"

  function GetPage(extension: string): (path: string)
    ensures |path| == |PagePrefix| + |extension|
    ensures path[..|PagePrefix|] == PagePrefix && path[|PagePrefix|..] == extension
  {
    PagePrefix + extension
  }

  function GetPopup(extension: string): (path: string)
    ensures |path| == |PopupPrefix| + |extension|
    ensures path[..|PopupPrefix|] == PopupPrefix && path[|PopupPrefix|..] == extension
  {
    PopupPrefix + extension
  }

  function GetOptions(extension: string): (path: string)
    ensures |path| == |OptionsPrefix| + |extension|
    ensures path[..|OptionsPrefix|] == OptionsPrefix && path[|OptionsPrefix|..] == extension
  {
    OptionsPrefix + extension
  }

  /** The rest of `path` after `prefix`, if it starts with it. */
  function StripPrefix(prefix: string, path: string): (rest: Option<string>)
    ensures rest.Some? <==> prefix <= path
    ensures rest.Some? ==> path == prefix + rest.value
  {
    if prefix <= path then Some(path[|prefix|..]) else None
  }

  /** Removing each fixed prefix gives the extension back. */
  lemma StripAfterPrefix(extension: string)
    ensures StripPrefix(PagePrefix, GetPage(extension)) == Some(extension)
    ensures StripPrefix(PopupPrefix, GetPopup(extension)) == Some(extension)
    ensures StripPrefix(OptionsPrefix, GetOptions(extension)) == Some(extension)
  {
  }

  lemma GetPageInjective(a: string, b: string)
    ensures GetPage(a) == GetPage(b) <==> a == b
  {
    if GetPage(a) == GetPage(b) {
      assert a == GetPage(a)[|PagePrefix|..];
    }
  }

  lemma GetPopupInjective(a: string, b: string)
    ensures GetPopup(a) == GetPopup(b) <==> a == b
  {
    if GetPopup(a) == GetPopup(b) {
      assert a == GetPopup(a)[|PopupPrefix|..];
    }
  }

  lemma GetOptionsInjective(a: string, b: string)
    ensures GetOptions(a) == GetOptions(b) <==> a == b
  {
    if GetOptions(a) == GetOptions(b) {
      assert a == GetOptions(a)[|OptionsPrefix|..];
    }
  }

  /** The three kinds of path never coincide: their prefixes differ within
      the shorter one's length. */
  lemma PathsDisjoint(a: string, b: string)
    ensures GetPage(a) != GetPopup(b)
    ensures GetPage(a) != GetOptions(b)
    ensures GetPopup(a) != GetOptions(b)
  {
    assert GetPage(a)[1] == 'a';
    assert GetPopup(b)[1] == 'o' && GetPopup(a)[0] == 'p';
    assert GetOptions(b)[0] == 'o';
    assert GetPage(a)[0] == 'p';
  }
}
