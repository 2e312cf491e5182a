/** Shared value types of the model: optional values, results, and the .NET notion of blank text. */
module Common {

  datatype Option<+T> = None | Some(value: T)

  /** A call into code the model does not see either returns or throws. */
  datatype Attempt<+T> = Returned(result: T) | Threw(exn: Exn)

  /** An exception; its type name is what `ErrorContext.FromException` records. */
  datatype Exn = Exn(typeName: string)

  /** `char.IsWhiteSpace`. */
  predicate IsWhiteSpace(c: char) {
    var n := c as int;
    || 0x9 <= n <= 0xD
    || n in {0x20, 0x85, 0xA0, 0x1680, 0x2028, 0x2029, 0x202F, 0x205F, 0x3000}
    || 0x2000 <= n <= 0x200A
  }

  /** `string.IsNullOrWhiteSpace` on a non-null string. */
  predicate IsBlank(s: string) {
    forall i | 0 <= i < |s| :: IsWhiteSpace(s[i])
  }

  /** `string.Trim`. */
  function Trim(s: string): string {
    TrimEnd(TrimStart(s))
  }

  function TrimStart(s: string): string {
    if s != [] && IsWhiteSpace(s[0]) then TrimStart(s[1..]) else s
  }

  function TrimEnd(s: string): string {
    if s != [] && IsWhiteSpace(s[|s| - 1]) then TrimEnd(s[..|s| - 1]) else s
  }

  // ----- names of stored documents -----

  datatype Identity = Identity(namespace: string, name: string)

  predicate SingleSegment(s: string) {
    '/' !in s
  }

  /** The index of the first `/`, or the length if there is none. */
  function Separator(s: string): (i: nat)
    ensures i <= |s|
    ensures i < |s| ==> s[i] == '/'
    ensures '/' !in s[..i]
  {
    if s == [] || s[0] == '/' then 0
    else
      assert forall i: nat :: i < |s| ==> s[..i + 1] == [s[0]] + s[1..][..i];
      1 + Separator(s[1..])
  }
}
