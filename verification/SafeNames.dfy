/** Names that can be used verbatim as directory entries (launcher/bundles.py). */
module SafeNames {
  predicate IsLetterOrDigit(c: char) { 'A' <= c <= 'Z' || 'a' <= c <= 'z' || '0' <= c <= '9' }
  predicate IsNameChar(c: char) { IsLetterOrDigit(c) || c == '.' || c == '_' || c == '-' || c == ' ' }

  function UpToDot(s: string): string { if s == "" || s[0] == '.' then "" else [s[0]] + UpToDot(s[1..]) }

  function DropSpaces(s: string): string {
    if s != "" && s[|s| - 1] == ' ' then DropSpaces(s[..|s| - 1]) else s
  }

  function UpperChar(c: char): char { if 'a' <= c <= 'z' then c - 'a' + 'A' else c }

  function Upper(s: string): string { seq(|s|, i requires 0 <= i < |s| => UpperChar(s[i])) }

  /** Windows device names: CON, PRN, AUX, NUL, COM1 to COM9, LPT1 to LPT9. */
  predicate Reserved(s: string) {
    s in {"CON", "PRN", "AUX", "NUL"} || (|s| == 4 && s[..3] in {"COM", "LPT"} && '1' <= s[3] <= '9')
  }

  predicate SafeName(name: string) {
    && name != "" && IsLetterOrDigit(name[0]) && (forall c :: c in name ==> IsNameChar(c))
    && name[|name| - 1] != ' ' && name[|name| - 1] != '.'
    && !Reserved(Upper(DropSpaces(UpToDot(name))))
  }
}
