/** The only input check `handleSubmit` makes: the trimmed answer text must not be empty. */
module Input {

  /** ECMAScript WhiteSpace and LineTerminator code points, the set `String.prototype.trim` strips. */
  predicate IsJsSpace(c: char)
  {
    var n := c as int;
    n == 0x09 || n == 0x0A || n == 0x0B || n == 0x0C || n == 0x0D || n == 0x20 ||
    n == 0xA0 || n == 0x1680 || (0x2000 <= n <= 0x200A) || n == 0x2028 || n == 0x2029 ||
    n == 0x202F || n == 0x205F || n == 0x3000 || n == 0xFEFF
  }

  function TrimStart(s: string): (r: string)
    ensures |r| <= |s| && r == s[|s| - |r|..]
    ensures r != [] ==> !IsJsSpace(r[0])
    ensures forall i :: 0 <= i < |s| - |r| ==> IsJsSpace(s[i])
  {
    if s != [] && IsJsSpace(s[0]) then TrimStart(s[1..]) else s
  }

  function TrimEnd(s: string): (r: string)
    ensures |r| <= |s| && r == s[..|r|]
    ensures r != [] ==> !IsJsSpace(r[|r| - 1])
    ensures forall i :: |r| <= i < |s| ==> IsJsSpace(s[i])
  {
    if s != [] && IsJsSpace(s[|s| - 1]) then TrimEnd(s[..|s| - 1]) else s
  }

  /** `raw.trim()`. */
  function Trim(s: string): string
  {
    TrimEnd(TrimStart(s))
  }

  /** Trimming the start leaves nothing exactly when the answer is white space only. */
  lemma TrimStartEmpty(s: string)
    ensures TrimStart(s) == [] <==> forall i :: 0 <= i < |s| ==> IsJsSpace(s[i])
  {
  }

  /** Trimming the end leaves nothing exactly when the answer is white space only. */
  lemma TrimEndEmpty(s: string)
    ensures TrimEnd(s) == [] <==> forall i :: 0 <= i < |s| ==> IsJsSpace(s[i])
  {
  }

  /** An answer is rejected as empty exactly when it consists of white space only. */
  lemma TrimEmpty(s: string)
    ensures Trim(s) == [] <==> forall i :: 0 <= i < |s| ==> IsJsSpace(s[i])
  {
    TrimStartEmpty(s);
    if Trim(s) == [] {
      assert TrimStart(s) == [];
    }
  }
}
