// The compile-time version check of the poppler GLib headers bundled with libvips:
// the three version numbers and POPPLER_CHECK_VERSION. The macro's arguments are
// C integer expressions; they are modelled as unbounded integers.

module PopplerFeatures {

  const MajorVersion: int := 21
  const MinorVersion: int := 7
  const MicroVersion: int := 0

  /** Lexicographic order on version numbers of the same length, compared field by
      field from the most significant one. */
  predicate AtMost(x: seq<int>, y: seq<int>)
    requires |x| == |y|
  {
    x == [] || x[0] < y[0] || (x[0] == y[0] && AtMost(x[1..], y[1..]))
  }

  /** POPPLER_CHECK_VERSION(major, minor, micro): the header files are of the passed-in
      version or newer. */
  function CheckVersion(major: int, minor: int, micro: int): (r: bool)
    ensures r <==> AtMost([major, minor, micro], [MajorVersion, MinorVersion, MicroVersion])
  {
    AtMostTriple(major, minor, micro, MajorVersion, MinorVersion, MicroVersion);
    MajorVersion > major
    || (MajorVersion == major && MinorVersion > minor)
    || (MajorVersion == major && MinorVersion == minor && MicroVersion >= micro)
  }

  /** The order on three-part versions, written out. */
  lemma AtMostTriple(a: int, b: int, c: int, d: int, e: int, f: int)
    ensures AtMost([a, b, c], [d, e, f]) <==> a < d || (a == d && (b < e || (b == e && c <= f)))
  {
    assert [a, b, c][1..] == [b, c] && [d, e, f][1..] == [e, f];
    assert [b, c][1..] == [c] && [e, f][1..] == [f];
    assert [c][1..] == [] && [f][1..] == [];
    assert AtMost([c], [f]) <==> c <= f;
    assert AtMost([b, c], [e, f]) <==> b < e || (b == e && c <= f);
  }

  lemma {:induction false} AtMostTransitive(x: seq<int>, y: seq<int>, z: seq<int>)
    requires |x| == |y| == |z| && AtMost(x, y) && AtMost(y, z)
    ensures AtMost(x, z)
  {
    if x != [] && x[0] == y[0] && y[0] == z[0] {
      AtMostTransitive(x[1..], y[1..], z[1..]);
    }
  }

  /** The installed version passes its own check; the next micro, minor and major
      versions do not. */
  lemma CheckVersionBoundary()
    ensures CheckVersion(21, 7, 0)
    ensures !CheckVersion(21, 7, 1) && !CheckVersion(21, 8, 0) && !CheckVersion(22, 0, 0)
  {
  }

  /** A major version alone decides the check unless it is 21. */
  lemma CheckVersionByMajor(major: int, minor: int, micro: int)
    ensures major < 21 ==> CheckVersion(major, minor, micro)
    ensures major > 21 ==> !CheckVersion(major, minor, micro)
  {
  }

  /** A version older than one that passes passes too. */
  lemma CheckVersionDownward(major: int, minor: int, micro: int, major': int, minor': int, micro': int)
    requires CheckVersion(major, minor, micro)
    requires AtMost([major', minor', micro'], [major, minor, micro])
    ensures CheckVersion(major', minor', micro')
  {
    AtMostTransitive([major', minor', micro'], [major, minor, micro], [MajorVersion, MinorVersion, MicroVersion]);
  }
}
