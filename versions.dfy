/** `_increment_version`: bumps the minor part of a `major.minor` version string. */
module Versions {
  import opened Wrappers
  import opened Text

  /** `_increment_version(version)` */
  function IncrementVersion(version: string): (r: string)
    ensures |Split(version, ".")| != 2 ==> r == "1.1"
  {
    var parts := Split(version, ".");
    if |parts| == 2 && ParseInt(parts[1]).Some? then
      parts[0] + "." + IntToString(ParseInt(parts[1]).value + 1)
    else "1.1"
  }

  lemma DotUnbordered()
    ensures Unbordered(".")
  {
  }

  /** Two dot-free parts joined by a dot split back into exactly those parts. */
  lemma VersionParts(major: string, minor: string)
    requires !Contains(major, ".") && !Contains(minor, ".")
    ensures Split(major + "." + minor, ".") == [major, minor]
  {
    DotUnbordered();
    SplitAround(major, ".", minor);
    SplitWithoutSeparator(minor, ".");
  }

  /** `major.minor` with an integer minor part becomes `major.(minor+1)`, keeping `major` as written. */
  lemma IncrementBumpsMinor(major: string, minor: string, n: int)
    requires !Contains(major, ".") && !Contains(minor, ".")
    requires ParseInt(minor) == Some(n)
    ensures IncrementVersion(major + "." + minor) == major + "." + IntToString(n + 1)
  {
    VersionParts(major, minor);
  }

  /** A minor part that is not an integer literal falls back to `1.1`. */
  lemma IncrementRejectsMinor(major: string, minor: string)
    requires !Contains(major, ".") && !Contains(minor, ".")
    requires ParseInt(minor).None?
    ensures IncrementVersion(major + "." + minor) == "1.1"
  {
    VersionParts(major, minor);
  }

  /** Any version without exactly one dot falls back to `1.1`. */
  lemma IncrementNeedsOneDot(version: string)
    requires multiset(version)['.'] != 1
    ensures IncrementVersion(version) == "1.1"
  {
    SplitLength(version, ".");
    CountChar(version, '.');
  }

  lemma IntHasNoDot(n: int)
    ensures !Contains(IntToString(n), ".")
  {
    var t := IntToString(n);
    ContainsChar(t, '.');
    forall i | 0 <= i < |t| ensures t[i] != '.' {
      if n < 0 && i > 0 {
        assert t[i] == NatToString(-n)[i - 1];
      }
    }
  }

  /** A version whose minor part is a printed integer is followed by the next integer. */
  lemma IncrementNumbered(major: string, n: int)
    requires !Contains(major, ".")
    ensures IncrementVersion(major + "." + IntToString(n)) == major + "." + IntToString(n + 1)
  {
    IntHasNoDot(n);
    ParseIntToString(n);
    IncrementBumpsMinor(major, IntToString(n), n);
  }

  /** A version string that is not `major.minor` at all falls back to `1.1`. */
  lemma IncrementExampleInvalid()
    ensures IncrementVersion("invalid") == "1.1"
  {
    assert multiset("invalid")['.'] == 0;
    IncrementNeedsOneDot("invalid");
  }
}
