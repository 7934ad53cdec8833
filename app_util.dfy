/** `sanitizeFilename` of src/app/util.ts: the characters a file name cannot hold become '_'. */
module AppUtil {
  /** The characters of the pattern `[/\\?%*:|"<> ]`. */
  predicate Forbidden(c: char) {
    c == '/' || c == '\\' || c == '?' || c == '%' || c == '*' || c == ':' ||
    c == '|' || c == '"' || c == '<' || c == '>' || c == ' '
  }

  /** `name.replace(/[/\\?%*:|"<> ]/g, "_")`, one character at a time from the front. */
  function SanitizeFilename(name: string): (r: string)
    ensures |r| == |name|
    ensures forall i :: 0 <= i < |name| && Forbidden(name[i]) ==> r[i] == '_'
    ensures forall i :: 0 <= i < |name| && !Forbidden(name[i]) ==> r[i] == name[i]
  {
    if name == [] then []
    else [if Forbidden(name[0]) then '_' else name[0]] + SanitizeFilename(name[1..])
  }

  /** The result holds none of the forbidden characters, and sanitising it again changes nothing. */
  lemma SanitizeClean(name: string)
    ensures forall i :: 0 <= i < |SanitizeFilename(name)| ==> !Forbidden(SanitizeFilename(name)[i])
    ensures SanitizeFilename(SanitizeFilename(name)) == SanitizeFilename(name)
  {
    var once := SanitizeFilename(name);
    assert forall i :: 0 <= i < |once| ==> !Forbidden(once[i]) by {
      forall i | 0 <= i < |once| ensures !Forbidden(once[i]) {
        if Forbidden(name[i]) {
          assert once[i] == '_';
        }
      }
    }
  }

  /** A name with no forbidden character is kept as it is. */
  lemma SanitizeKeepsCleanNames(name: string)
    requires forall i :: 0 <= i < |name| ==> !Forbidden(name[i])
    ensures SanitizeFilename(name) == name
  {
  }
}
