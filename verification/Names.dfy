/**
 Object names and index keys: composite strings that the controllers use as identities.
 */
module Names {
  import opened Text

  // ----- PCI device objects -----

  /** Name of the PCIDevice object for an address on a host. */
  function PCIDeviceNameForHostname(address: string, hostname: string): string
  {
    hostname + "-" + ReplaceAll(ReplaceAll(address, ":", ""), ".", "")
  }

  /** A PCI address; the domain may have any width. */
  datatype PciAddress = PciAddress(domain: string, bus: string, device: string, fn: string)
  {
    function Text(): string { domain + ":" + bus + ":" + device + "." + fn }

    predicate WellFormed()
    {
      |bus| == 2 && |device| == 2 && |fn| == 1 && BareParts()
    }

    predicate BareParts()
    {
      Bare(domain) && Bare(bus) && Bare(device) && Bare(fn)
    }
  }

  predicate Bare(s: string) { ':' !in s && '.' !in s && '-' !in s }

  lemma StripSeparator(a: string, c: char, b: string)
    requires c !in a
    ensures ReplaceAll(a + [c] + b, [c], "") == a + ReplaceAll(b, [c], "")
  {
    assert ReplaceAll(a + [c], [c], "") == a by {
      ReplaceCharConcat(a, [c], c, "");
      ReplaceCharAbsent(a, c, "");
      RemoveOnly(c);
    }
    ReplaceCharConcat(a + [c], b, c, "");
  }

  lemma StrippedAddress(a: PciAddress)
    requires a.BareParts()
    ensures ReplaceAll(ReplaceAll(a.Text(), ":", ""), ".", "") == a.domain + a.bus + a.device + a.fn
  {
    var tail := a.device + "." + a.fn;
    StripSeparator(a.domain, ':', a.bus + ":" + tail);
    assert a.Text() == a.domain + [':'] + (a.bus + ":" + tail);
    StripSeparator(a.bus, ':', tail);
    assert a.bus + ":" + tail == a.bus + [':'] + tail;
    ReplaceCharAbsent(tail, ':', "");
    var head := a.domain + a.bus + a.device;
    assert a.domain + (a.bus + tail) == head + ['.'] + a.fn;
    StripSeparator(head, '.', a.fn);
    ReplaceCharAbsent(a.fn, '.', "");
  }

  /** The name is the host, a hyphen and the address without its separators. */
  lemma PciNameExactly(host: string, a: PciAddress)
    requires a.BareParts()
    ensures PCIDeviceNameForHostname(a.Text(), host) == host + "-" + (a.domain + a.bus + a.device + a.fn)
  {
    StrippedAddress(a);
  }

  /** Two well-formed addresses on two hosts never share an object name. */
  lemma PciNameInjective(h1: string, a1: PciAddress, h2: string, a2: PciAddress)
    requires a1.WellFormed() && a2.WellFormed()
    requires PCIDeviceNameForHostname(a1.Text(), h1) == PCIDeviceNameForHostname(a2.Text(), h2)
    ensures h1 == h2 && a1 == a2
  {
    StrippedAddress(a1);
    StrippedAddress(a2);
    var s1 := a1.domain + a1.bus + a1.device + a1.fn;
    var s2 := a2.domain + a2.bus + a2.device + a2.fn;
    LastSeparator(h1, s1, h2, s2, '-');
    var d := |a1.domain|;
    assert s1[..d] == a1.domain && s2[..d] == a2.domain;
    assert s1[d..d + 2] == a1.bus && s2[d..d + 2] == a2.bus;
    assert s1[d + 2..d + 4] == a1.device && s2[d + 2..d + 4] == a2.device;
    assert s1[d + 4..] == a1.fn && s2[d + 4..] == a2.fn;
  }

  /** Without fixed widths, different addresses on one host can get the same name. */
  lemma PciNameNeedsFixedWidths(host: string)
    ensures var a1, a2 := PciAddress("0", "1", "11", "0"), PciAddress("0", "11", "1", "0");
      && a1.Text() != a2.Text()
      && PCIDeviceNameForHostname(a1.Text(), host) == PCIDeviceNameForHostname(a2.Text(), host)
  {
    var a1, a2 := PciAddress("0", "1", "11", "0"), PciAddress("0", "11", "1", "0");
    assert a1.Text()[3] == ':' && a2.Text()[3] == '1';
    StrippedAddress(a1);
    StrippedAddress(a2);
    assert "0" + "1" + "11" + "0" == "0" + "11" + "1" + "0";
  }

  // ----- USB device objects -----

  datatype UsbDevice = UsbDevice(vendor: nat, product: nat, devicePath: string)

  const USB_ROOT := "/dev/bus/usb/"

  function UsbPathKey(devicePath: string): string
  {
    ReplaceAll(ReplaceAll(devicePath, USB_ROOT, ""), "/", "")
  }

  /** Name of the USBDevice object for a device on a node. */
  function UsbDeviceName(node: string, d: UsbDevice): string
  {
    node + "-" + HexWidth(d.vendor, 4) + "-" + HexWidth(d.product, 4) + "-" + UsbPathKey(d.devicePath)
  }

  /** The path of a device node with a three-digit bus and a three-digit device number. */
  function UsbPath(bus: string, dev: string): string { USB_ROOT + bus + "/" + dev }

  predicate ThreeDigits(s: string)
  {
    |s| == 3 && forall i :: 0 <= i < 3 ==> '0' <= s[i] <= '9'
  }

  ghost predicate CanonicalPath(p: string)
  {
    exists bus, dev :: ThreeDigits(bus) && ThreeDigits(dev) && p == UsbPath(bus, dev)
  }

  lemma UsbPathKeyValue(bus: string, dev: string)
    requires ThreeDigits(bus) && ThreeDigits(dev)
    ensures UsbPathKey(UsbPath(bus, dev)) == bus + dev
  {
    var rest := bus + "/" + dev;
    assert UsbPath(bus, dev) == USB_ROOT + rest;
    assert (USB_ROOT + rest)[|USB_ROOT|..] == rest;
    assert ReplaceAll(rest, USB_ROOT, "") == rest;
    assert ReplaceAll(USB_ROOT + rest, USB_ROOT, "") == "" + ReplaceAll(rest, USB_ROOT, "") == rest;
    assert rest == bus + ['/'] + dev;
    assert '/' !in bus && '/' !in dev;
    StripSeparator(bus, '/', dev);
    ReplaceCharAbsent(dev, '/', "");
    assert "/" == ['/'];
  }

  /** The path key of a canonical path has six characters and determines the path. */
  lemma UsbPathKeyInjective(p1: string, p2: string)
    requires CanonicalPath(p1) && CanonicalPath(p2)
    ensures |UsbPathKey(p1)| == 6
    ensures UsbPathKey(p1) == UsbPathKey(p2) ==> p1 == p2
  {
    var b1, d1 :| ThreeDigits(b1) && ThreeDigits(d1) && p1 == UsbPath(b1, d1);
    var b2, d2 :| ThreeDigits(b2) && ThreeDigits(d2) && p2 == UsbPath(b2, d2);
    UsbPathKeyValue(b1, d1);
    UsbPathKeyValue(b2, d2);
    if b1 + d1 == b2 + d2 {
      assert (b1 + d1)[..3] == b1 && (b2 + d2)[..3] == b2;
      assert (b1 + d1)[3..] == d1 && (b2 + d2)[3..] == d2;
    }
  }

  /** The name is the node, both IDs as four digits, and the bus and device numbers of the path. */
  lemma UsbNameExactly(node: string, vendor: nat, product: nat, bus: string, dev: string)
    requires ThreeDigits(bus) && ThreeDigits(dev)
    ensures UsbDeviceName(node, UsbDevice(vendor, product, "/dev/bus/usb/" + bus + "/" + dev))
      == node + "-" + HexWidth(vendor, 4) + "-" + HexWidth(product, 4) + "-" + (bus + dev)
  {
    UsbPathKeyValue(bus, dev);
    assert "/dev/bus/usb/" + bus + "/" + dev == UsbPath(bus, dev);
  }

  /** USB object names determine node, vendor ID, product ID and path. */
  lemma UsbNameInjective(n1: string, d1: UsbDevice, n2: string, d2: UsbDevice)
    requires CanonicalPath(d1.devicePath) && CanonicalPath(d2.devicePath)
    requires d1.vendor < 0x10000 && d1.product < 0x10000 && d2.vendor < 0x10000 && d2.product < 0x10000
    requires UsbDeviceName(n1, d1) == UsbDeviceName(n2, d2)
    ensures n1 == n2 && d1 == d2
  {
    UsbPathKeyInjective(d1.devicePath, d2.devicePath);
    UsbPathKeyInjective(d2.devicePath, d1.devicePath);
    UsbNameParts(n1, d1);
    UsbNameParts(n2, d2);
    Pow16Values();
    HexInjective(d1.vendor, d2.vendor, 4);
    HexInjective(d1.product, d2.product, 4);
  }

  /** The fields of a USB object name sit at fixed distances from its end. */
  lemma UsbNameParts(node: string, d: UsbDevice)
    requires |UsbPathKey(d.devicePath)| == 6
    ensures var s := UsbDeviceName(node, d); var n := |s|;
      && n == |node| + 17 && s[..n - 17] == node
      && s[n - 16..n - 12] == HexWidth(d.vendor, 4) && s[n - 11..n - 7] == HexWidth(d.product, 4)
      && s[n - 6..] == UsbPathKey(d.devicePath)
  {
    var s := UsbDeviceName(node, d);
    var n := |node|;
    assert s[..n] == node;
    assert s[n + 1..n + 5] == HexWidth(d.vendor, 4);
    assert s[n + 6..n + 10] == HexWidth(d.product, 4);
    assert s[n + 11..] == UsbPathKey(d.devicePath);
  }

  // ----- index keys -----

  /** Key of the index by node and IOMMU group, and of the index by node and PCI address. */
  function NodeKey(node: string, part: string): string { node + "-" + part }

  lemma NodeKeyInjective(n1: string, p1: string, n2: string, p2: string)
    requires '-' !in p1 && '-' !in p2
    ensures NodeKey(n1, p1) == NodeKey(n2, p2) <==> n1 == n2 && p1 == p2
  {
    if NodeKey(n1, p1) == NodeKey(n2, p2) {
      LastSeparator(n1, p1, n2, p2, '-');
    }
  }

  /** With a hyphen in the second part, different pairs can share a key. */
  lemma NodeKeyNeedsHyphenFreePart()
    ensures NodeKey("a", "b-c") == NodeKey("a-b", "c")
  {
  }
}
