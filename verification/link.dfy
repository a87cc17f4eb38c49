/** Terminal hyperlinks for the public address of a proxy (terminal/click_link.go): an
    OSC 8 escape sequence whose target is the address with a scheme and whose visible
    text is the address as given. The underline-and-colour styling comes from a
    library and is a parameter `style`. */
module Link {
  import opened GoText

  const Esc: char := 27 as char
  /** `ESC ] 8 ; ;`, which opens (with a target) or closes (without one) a link. */
  const Osc8: string := [Esc] + "]8;;"
  /** The string terminator `ESC \`. */
  const St: string := [Esc] + "\\"
  const Close: string := Osc8 + St

  const Https: string := "https://"
  const Http: string := "http://"

  /** `CreateClickableLink`: open a link to `url`, show the styled text, close the link. */
  function CreateClickableLink(url: string, text: string, style: string -> string): (s: string)
    ensures HasPrefix(s, Osc8) && |s| == |Osc8| + |url| + |St| + |style(text)| + |Close|
  {
    Osc8 + url + St + style(text) + Close
  }

  /** The target and the visible text of a link, read back from its escape sequence:
      the target runs from the opener to the first escape character, and the text
      from the terminator after it to the closing sequence at the end. */
  function ParseLink(s: string): (r: (bool, string, string))
    ensures r.0 ==> Esc !in r.1
  {
    if !HasPrefix(s, Osc8) then (false, "", "")
    else
      var rest := s[|Osc8|..];
      if Esc !in rest then (false, "", "")
      else
        var i := IndexOf(rest, Esc);
        var after := rest[i..];
        if |after| < |St| + |Close| || !HasPrefix(after, St) || after[|after| - |Close|..] != Close then (false, "", "")
        else (true, rest[..i], after[|St|..|after| - |Close|])
  }

  /** A link whose target holds no escape character reads back as that target and the
      styled text, whatever the styling adds. */
  lemma LinkRoundTrip(url: string, text: string, style: string -> string)
    requires Esc !in url
    ensures ParseLink(CreateClickableLink(url, text, style)) == (true, url, style(text))
  {
    var s := CreateClickableLink(url, text, style);
    var rest := s[|Osc8|..];
    assert rest == url + (St + style(text) + Close);
    assert rest[|url|] == Esc;
    IndexOfFirst(rest, Esc, |url|);
    var after := rest[|url|..];
    assert after == St + style(text) + Close;
    assert after[|after| - |Close|..] == Close;
    assert rest[..|url|] == url;
    assert after[|St|..|after| - |Close|] == style(text);
  }

  /** The scheme rule of `CreateProxyLink`: keep an address that already starts with
      "https://" or "http://", otherwise put "https://" in front. */
  function WithScheme(domain: string): (url: string)
    ensures HasPrefix(url, Https) || HasPrefix(url, Http)
    ensures HasPrefix(domain, Https) || HasPrefix(domain, Http) ==> url == domain
    ensures !(HasPrefix(domain, Https) || HasPrefix(domain, Http)) ==> url == Https + domain
  {
    if !HasPrefix(domain, Https) && !HasPrefix(domain, Http) then Https + domain else domain
  }

  /** Adding the scheme twice is adding it once, and the address always ends the URL. */
  lemma WithSchemeIdempotent(domain: string)
    ensures WithScheme(WithScheme(domain)) == WithScheme(domain)
    ensures |WithScheme(domain)| >= |domain|
    ensures WithScheme(domain)[|WithScheme(domain)| - |domain|..] == domain
  {
  }

  /** `CreateProxyLink`: a link to the address with a scheme, showing the address as
      given. */
  function CreateProxyLink(domain: string, style: string -> string): (s: string)
    ensures HasPrefix(s, Osc8 + WithScheme(domain) + St)
    ensures |s| == |Osc8| + |WithScheme(domain)| + |St| + |style(domain)| + |Close|
  {
    CreateClickableLink(WithScheme(domain), domain, style)
  }

  /** The proxy link points at the address with a scheme and shows the address as
      given. */
  lemma ProxyLinkTargetAndText(domain: string, style: string -> string)
    requires Esc !in domain
    ensures ParseLink(CreateProxyLink(domain, style)) == (true, WithScheme(domain), style(domain))
  {
    assert Esc !in Https;
    assert Esc !in WithScheme(domain);
    LinkRoundTrip(WithScheme(domain), domain, style);
  }
}
