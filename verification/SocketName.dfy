/**
 Resource names short enough for the plugin's socket path.
 */
module SocketName {
  import opened Text

  const PLUGIN_NAME_PREFIX := "/var/lib/kubelet/device-plugins/kubevirt-"
  const SOCKET_LIMIT := 108
  const VF_SUFFIX := "VIRTUAL_FUNCTION"
  const SHORT_VF_SUFFIX := "VF"
  const DEVICE_PLUGIN_PATH := "/var/lib/kubelet/device-plugins/"

  /** The name whose length is checked. */
  function FullSocketName(vendor: string, product: string): string
  {
    PLUGIN_NAME_PREFIX + "/" + vendor + "-" + product + ".sock"
  }

  predicate TooLong(vendor: string, product: string)
  {
    |FullSocketName(vendor, product)| > SOCKET_LIMIT
  }

  function Shorten(product: string): string { ReplaceAll(product, VF_SUFFIX, SHORT_VF_SUFFIX) }

  function TrimResourceNameIfNeeded(vendor: string, product: string, id: string): string
    decreases |product|
  {
    if TooLong(vendor, product) then
      if Contains(product, VF_SUFFIX) then
        ShortenShrinks(product);
        TrimResourceNameIfNeeded(vendor, Shorten(product), id)
      else vendor + "/" + id
    else vendor + "/" + product
  }

  /** The socket the device plugin listens on. */
  function SocketPath(resourceName: string): string
  {
    DEVICE_PLUGIN_PATH + "kubevirt-" + ReplaceAll(resourceName, "/", "-") + ".sock"
  }

  lemma {:induction false} ShortenShrinks(s: string)
    ensures |Shorten(s)| <= |s|
    ensures Contains(s, VF_SUFFIX) ==> |Shorten(s)| < |s|
    decreases |s|
  {
    if |s| >= |VF_SUFFIX| {
      if VF_SUFFIX <= s {
        ShortenShrinks(s[|VF_SUFFIX|..]);
      } else {
        ShortenShrinks(s[1..]);
      }
    }
  }

  /** A text without `V` at the front of the shortened name was already at the front of the name. */
  lemma {:induction false} FrontKept(s: string, u: string)
    requires 'V' !in u && u <= Shorten(s)
    ensures u <= s
    decreases |s|
  {
    if u != "" {
      if |s| >= |VF_SUFFIX| {
        assert Shorten(s)[0] == u[0] != 'V';
        assert !(VF_SUFFIX <= s);
        assert Shorten(s)[1..] == Shorten(s[1..]);
        FrontKept(s[1..], u[1..]);
        assert u == [u[0]] + u[1..] && s == [s[0]] + s[1..];
      }
    }
  }

  /** Replacing VIRTUAL_FUNCTION by VF leaves no VIRTUAL_FUNCTION and makes no new one. */
  lemma {:induction false} ShortenedHasNoSuffix(s: string)
    ensures !Contains(Shorten(s), VF_SUFFIX)
    decreases |s|
  {
    var t := Shorten(s);
    if |s| >= |VF_SUFFIX| {
      if VF_SUFFIX <= s {
        var rest := s[|VF_SUFFIX|..];
        ShortenedHasNoSuffix(rest);
        assert t == "VF" + Shorten(rest);
        assert t[1..] == "F" + Shorten(rest) && t[1..][1..] == Shorten(rest);
        assert t[1] != VF_SUFFIX[1] && t[1..][0] != VF_SUFFIX[0];
        assert !(VF_SUFFIX <= t) && !(VF_SUFFIX <= t[1..]);
      } else {
        ShortenedHasNoSuffix(s[1..]);
        assert t == [s[0]] + Shorten(s[1..]) && t[1..] == Shorten(s[1..]);
        if VF_SUFFIX <= t {
          FrontKept(s[1..], VF_SUFFIX[1..]);
        }
      }
    }
  }

  /**
   The recursion goes at most one level deep: the name is the full product, or the product with
   the shortened suffix, or the ID.
   */
  lemma TrimIsTwoLevels(vendor: string, product: string, id: string)
    ensures TrimResourceNameIfNeeded(vendor, product, id) ==
      if !TooLong(vendor, product) then vendor + "/" + product
      else if Contains(product, VF_SUFFIX) && !TooLong(vendor, Shorten(product)) then vendor + "/" + Shorten(product)
      else vendor + "/" + id
  {
    ShortenedHasNoSuffix(product);
  }

  lemma {:induction false} SlashKeepsLength(s: string)
    ensures |ReplaceAll(s, "/", "-")| == |s|
  {
    if s != "" {
      SlashKeepsLength(s[1..]);
    }
  }

  /** Every name other than the vendor/ID fallback gives a socket path of at most 107 bytes. */
  lemma SocketPathFits(vendor: string, product: string, id: string)
    ensures var name := TrimResourceNameIfNeeded(vendor, product, id);
      name == vendor + "/" + id || |SocketPath(name)| <= SOCKET_LIMIT - 1
  {
    TrimIsTwoLevels(vendor, product, id);
    SlashKeepsLength(TrimResourceNameIfNeeded(vendor, product, id));
  }

  /** The bound is tight: some product name that is kept gives a path of exactly 107 bytes. */
  lemma SocketPathBoundIsTight()
    ensures exists vendor, product, id: string ::
      (product != id &&
       TrimResourceNameIfNeeded(vendor, product, id) == vendor + "/" + product &&
       |SocketPath(vendor + "/" + product)| == SOCKET_LIMIT - 1)
  {
    var vendor, product, id := seq(30, _ => 'v'), seq(30, _ => 'p'), "";
    SlashKeepsLength(vendor + "/" + product);
    assert |FullSocketName(vendor, product)| == SOCKET_LIMIT;
    assert TrimResourceNameIfNeeded(vendor, product, id) == vendor + "/" + product;
    assert product != id;
    assert |SocketPath(vendor + "/" + product)| == SOCKET_LIMIT - 1;
  }

  /**
   Exactly when the socket path fits: the name is short enough, or it is with the shortened suffix,
   or vendor and ID of the fallback have at most 60 bytes together.
   */
  lemma SocketPathExact(vendor: string, product: string, id: string)
    ensures |SocketPath(TrimResourceNameIfNeeded(vendor, product, id))| <= SOCKET_LIMIT - 1 <==>
      || !TooLong(vendor, product)
      || (Contains(product, VF_SUFFIX) && !TooLong(vendor, Shorten(product)))
      || |vendor| + |id| <= 60
  {
    TrimIsTwoLevels(vendor, product, id);
    SlashKeepsLength(TrimResourceNameIfNeeded(vendor, product, id));
  }
}
