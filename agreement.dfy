/**
 * How the page's extension check and the endpoint's extension check relate:
 * the page looks at the text from the last dot on (JavaScript
 * `slice(lastIndexOf('.'))`), the endpoint at the text after the last dot
 * (Python `split('.')[-1]`).
 */
module Agreement {
  import opened Text
  import App
  import Routes

  /** Whatever the page lets through, the endpoint accepts too. */
  lemma PageAcceptedImpliesEndpointAccepted(name: string)
    requires App.Extension(name) in App.SupportedFormats
    ensures Routes.Accepted(name)
    ensures Routes.ExtensionOf(name) == App.Extension(name)[1..]
  {
    var dot := LastIndexOf(name, '.');
    var e := App.Extension(name);
    assert |e| == 4;
    assert dot >= 0;
    AfterLastIndex(name, '.');
    LowerSuffix(name, dot);
    LowerSuffix(name, dot + 1);
    assert Lower(name)[dot..][1..] == Lower(name)[dot + 1..];
  }

  /**
   * The converse fails: a file named just `dcm` has no dot, so the page takes
   * its last character as the extension and refuses it, while the endpoint
   * takes the whole name and accepts it.
   */
  lemma BareNameSplitsTheChecks()
    ensures App.Extension("dcm") == "m" && App.Extension("dcm") !in App.SupportedFormats
    ensures Routes.ExtensionOf("dcm") == "dcm" && Routes.Accepted("dcm")
  {
    var s := "dcm";
    assert s[2] == 'm' && s[1] == 'c' && s[0] == 'd';
    assert LastIndexOf(s, '.') == -1;
    assert Lower(s)[2..] == "m";
    Routes.ExtensionOfUndotted(s);
    assert Lower(s) == "dcm";
  }
}
