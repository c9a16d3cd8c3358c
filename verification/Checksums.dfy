/**
 * The written forms of an image version: `sha256-<hex>`, `sha256:<hex>` and
 * bare hex (bentod/src/runnerd.rs, `sha256_hex`; crates/store/src/runners.rs,
 * `bare_checksum`).
 */
module Checksums {
  import opened Options

  const DASHED: string := "sha256-"
  const COLONED: string := "sha256:"

  predicate StartsWith(s: string, prefix: string) {
    |prefix| <= |s| && s[..|prefix|] == prefix
  }

  function LowerChar(c: char): char {
    if 'A' <= c <= 'Z' then (c as int + 32) as char else c
  }

  function Lower(s: string): (r: string)
    ensures |r| == |s| && forall i :: 0 <= i < |s| ==> r[i] == LowerChar(s[i])
  {
    seq(|s|, i requires 0 <= i < |s| => LowerChar(s[i]))
  }

  predicate IsHexDigit(c: char) {
    '0' <= c <= '9' || 'a' <= c <= 'f' || 'A' <= c <= 'F'
  }

  /** Sixty-four lowercase hexadecimal digits: the name of a version. */
  predicate IsAddress(s: string) {
    |s| == 64 && forall i :: 0 <= i < |s| ==> '0' <= s[i] <= '9' || 'a' <= s[i] <= 'f'
  }

  /** One prefix at most is removed, then letters are lowered. */
  function Bare(checksum: string): string {
    Lower(if StartsWith(checksum, DASHED) then checksum[|DASHED|..]
          else if StartsWith(checksum, COLONED) then checksum[|COLONED|..]
          else checksum)
  }

  /** The runner's reading of a checksum, or nothing when it is not a content address. */
  function Address(checksum: string): (r: Option<string>)
    ensures r.Some? ==> IsAddress(r.value)
  {
    var hex := Bare(checksum);
    if |hex| == 64 && forall i :: 0 <= i < |hex| ==> IsHexDigit(hex[i]) then
      assert forall i :: 0 <= i < |hex| ==> !('A' <= hex[i] <= 'F');
      Some(hex)
    else None
  }

  /** The ways a version can be written: bare or after one of two prefixes, in letters of either case. */
  predicate Writes(s: string, written: string) { s == written || s == DASHED + written || s == COLONED + written }

  /**
   * What the runner takes for a content address: exactly the ways to write
   * sixty-four hexadecimal digits, and it reads them as those digits.
   */
  lemma AddressExactlyWhen(s: string, hex: string)
    ensures Address(s) == Some(hex) <==> IsAddress(hex) && exists written :: Writes(s, written) && Lower(written) == hex
  {
    if Address(s) == Some(hex) {
      var written := if StartsWith(s, DASHED) || StartsWith(s, COLONED) then s[7..] else s;
      assert StartsWith(s, DASHED) ==> s == DASHED + written;
      assert StartsWith(s, COLONED) ==> s == COLONED + written;
      assert Writes(s, written) && Lower(written) == hex;
    }
    if IsAddress(hex) {
      if written :| Writes(s, written) && Lower(written) == hex {
        WrittenReadsBack(s, written);
      }
    }
  }

  lemma WrittenReadsBack(s: string, written: string)
    requires Writes(s, written) && IsAddress(Lower(written))
    ensures Address(s) == Some(Lower(written))
  {
    var hex := Lower(written);
    assert hex[0] == LowerChar(written[0]);
    assert written[0] != 's';
    assert s == DASHED + written ==> s[..7] == DASHED && s[7..] == written;
    assert s == COLONED + written ==> s[..7] == COLONED && s[6] != DASHED[6] && s[7..] == written;
    assert Bare(s) == hex;
    assert forall i :: 0 <= i < |hex| ==> IsHexDigit(hex[i]);
  }

  /**
   * The store and the runner agree on what a reported version is called: the
   * reported form, the stored form and the form sent back all read as the
   * same address.
   */
  lemma FormsAgree(hex: string)
    requires IsAddress(hex)
    ensures Bare(DASHED + hex) == hex && Bare(hex) == hex
    ensures Address(DASHED + hex) == Some(hex) && Address(hex) == Some(hex)
  {
    assert (DASHED + hex)[..|DASHED|] == DASHED;
    assert (DASHED + hex)[|DASHED|..] == hex;
    assert hex[0] != 's';
    assert Lower(hex) == hex;
    assert forall i :: 0 <= i < |hex| ==> IsHexDigit(hex[i]);
  }
}
