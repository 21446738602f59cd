/** The master key: its file format and the rules for loading or creating it. */
module VaultKey {
  import opened Wrappers
  import opened Text
  import opened VaultModel

  function DigitChar(n: Nibble): char {
    if n < 10 then '0' + n as char else 'a' + (n - 10) as char
  }

  function CharDigit(c: char): Option<Nibble> {
    if '0' <= c <= '9' then Some((c - '0') as int)
    else if 'a' <= c <= 'f' then Some((c - 'a') as int + 10)
    else if 'A' <= c <= 'F' then Some((c - 'A') as int + 10)
    else None
  }

  function Hex(digits: seq<Nibble>): (s: string)
    ensures |s| == |digits|
    ensures forall i :: 0 <= i < |s| ==> s[i] == DigitChar(digits[i])
  {
    seq(|digits|, i requires 0 <= i < |digits| => DigitChar(digits[i]))
  }

  function Unhex(s: string): Option<seq<Nibble>> {
    if s == "" then Some([])
    else
      var init := Unhex(s[..|s| - 1]);
      var last := CharDigit(s[|s| - 1]);
      if init.Some? && last.Some? then Some(init.value + [last.value]) else None
  }

  /** decodeMasterKey: 64 hexadecimal characters of either case, surrounding space ignored. */
  function DecodeKey(text: string): Option<Key> {
    var s := TrimSpace(text);
    if |s| == KEY_DIGITS && Unhex(s).Some? then Some(Master(Unhex(s).value)) else None
  }

  /** What a created key file holds. */
  function EncodeKey(digits: seq<Nibble>): string { Hex(digits) + "\n" }

  lemma DigitRoundTrip(n: Nibble)
    ensures CharDigit(DigitChar(n)) == Some(n)
  {
  }

  lemma {:induction false} UnhexHex(digits: seq<Nibble>)
    ensures Unhex(Hex(digits)) == Some(digits)
  {
    if digits != [] {
      var init, last := digits[..|digits| - 1], digits[|digits| - 1];
      assert Hex(digits)[..|digits| - 1] == Hex(init);
      UnhexHex(init);
      DigitRoundTrip(last);
      assert digits == init + [last];
    }
  }

  /** A key file reads back as the key it was written for, also without its newline; a file
      torn any earlier is not a key. */
  lemma KeyFileRoundTrip(digits: seq<Nibble>, written: nat)
    requires |digits| == KEY_DIGITS && written <= |EncodeKey(digits)|
    ensures DecodeKey(EncodeKey(digits)[..written])
         == if written < KEY_DIGITS then None else Some(Master(digits))
  {
    var text := EncodeKey(digits);
    UnhexHex(digits);
    if written <= KEY_DIGITS {
      assert text[..written] == Hex(digits)[..written];
      TrimNothing(text[..written]);
      if written == KEY_DIGITS { assert Hex(digits)[..written] == Hex(digits); }
    } else {
      assert text[..written] == Hex(digits) + "\n";
      TrimTail(Hex(digits), "\n");
    }
  }

  datatype KeyFile = Missing | Symlink | Unreadable | Content(text: string)

  /** loadMasterKey when nothing goes wrong underneath: the key, and whether the key file
      has to be created for it. */
  function LoadKey(keyHex: string, file: KeyFile, allowCreate: bool, generated: seq<Nibble>): Option<(Key, bool)> {
    if TrimSpace(keyHex) != "" then
      if DecodeKey(keyHex).Some? then Some((DecodeKey(keyHex).value, false)) else None
    else match file
      case Content(text) => if DecodeKey(text).Some? then Some((DecodeKey(text).value, false)) else None
      case Missing => if allowCreate then Some((Master(generated), true)) else None
      case _ => None
  }
}
