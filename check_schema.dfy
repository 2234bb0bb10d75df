// Verbosity levels of the plan-unit check and their string forms.
module CheckSchema {
  import opened Strings

  /** Verbosity is a plain integer in the source; the named levels are 0..3. */
  type Verbosity = int

  const Off: Verbosity := 0
  const Low: Verbosity := 1
  const Medium: Verbosity := 2
  const High: Verbosity := 3

  predicate StartsWith(s: string, c: char) { |s| > 0 && s[0] == c }

  /** Parses a verbosity by the first letter of the lower-cased string. */
  function ToVerbosity(s: string): (v: Verbosity)
    ensures Off <= v <= High
    ensures |s| > 0 && LowerChar(s[0]) == 'l' <==> v == Low
    ensures |s| > 0 && LowerChar(s[0]) == 'm' <==> v == Medium
    ensures |s| > 0 && LowerChar(s[0]) == 'h' <==> v == High
    ensures v == Off <==> !(|s| > 0 && LowerChar(s[0]) in {'l', 'm', 'h'})
  {
    var ls := ToLower(s);
    if StartsWith(ls, 'o') then Off
    else if StartsWith(ls, 'l') then Low
    else if StartsWith(ls, 'm') then Medium
    else if StartsWith(ls, 'h') then High
    else Off
  }

  function VerbosityString(v: Verbosity): (s: string)
    ensures v == Off ==> s == "off"
    ensures v == Low ==> s == "low"
    ensures v == Medium ==> s == "medium"
    ensures v == High ==> s == "high"
    ensures !(Off <= v <= High) <==> s == "unknown"
  {
    if v == Off then "off"
    else if v == Low then "low"
    else if v == Medium then "medium"
    else if v == High then "high"
    else "unknown"
  }

  /** Parsing the string form of a named level gives the level back. */
  lemma StringRoundTrip(v: Verbosity)
    requires Off <= v <= High
    ensures ToVerbosity(VerbosityString(v)) == v
  {
  }

  /** Parsing ignores case: an upper-case spelling means the same level. */
  lemma CaseInsensitive(s: string)
    ensures ToVerbosity(ToUpper(s)) == ToVerbosity(s)
  {
    if |s| > 0 {
      assert ToUpper(s)[0] == UpperChar(s[0]);
    }
  }

  /** A string naming no level, such as one starting with "v", means Off. */
  lemma UnknownMeansOff()
    ensures ToVerbosity("verbose") == Off
    ensures ToVerbosity("") == Off
    ensures ToVerbosity("Medium") == Medium
  {
  }
}
