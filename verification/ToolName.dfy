/** tool_validator.go: tool names as byte strings, checked against a 256-bit map. */
module ToolName {
  import opened ByteStrings

  const COLON: Byte := 0x3A

  /** The 256-bit map as four words; bit n is set when byte n may occur. */
  function BitmapWord(n: bv8): bv64 {
    if n == 0 then 0x03FF600000000000 else if n == 1 then 0x07FFFFFE87FFFFFE else 0
  }

  predicate BitSet(c: Byte) { (BitmapWord(c >> 6) >> ((c & 63) as bv64)) & 1 != 0 }

  /** '-', '.', digits, letters and '_'. */
  predicate Allowed(c: Byte) {
    c == 0x2D || c == 0x2E || 0x30 <= c <= 0x39 || 0x41 <= c <= 0x5A || c == 0x5F || 0x61 <= c <= 0x7A
  }

  lemma BitmapIsAllowed(c: Byte)
    ensures BitSet(c) <==> Allowed(c)
  {}

  ghost predicate ValidName(name: Bytes) {
    1 <= |name| <= 128 && forall i :: 0 <= i < |name| ==> Allowed(name[i])
  }

  datatype NameCheck = NameOk | NameEmpty | NameTooLong | NameChars

  method ValidateToolName(name: Bytes) returns (r: NameCheck)
    ensures r == NameOk <==> ValidName(name)
    ensures r == NameEmpty <==> name == []
    ensures r == NameTooLong <==> |name| > 128
  {
    if name == [] { return NameEmpty; }
    if |name| > 128 { return NameTooLong; }
    var i := 0;
    while i < |name|
      invariant i <= |name| && forall j :: 0 <= j < i ==> Allowed(name[j])
    {
      BitmapIsAllowed(name[i]);
      if !BitSet(name[i]) { return NameChars; }
      i := i + 1;
    }
    return NameOk;
  }

  /** Valid tool names contain no colon, which is what separates cache keys. */
  lemma NoColon(name: Bytes)
    requires ValidName(name)
    ensures COLON !in name
  {}
}
