/**
 * Log-level selection shared by the three binaries: the configured
 * level name is lower-cased and matched against a fixed list of names,
 * and anything unrecognised selects INFO.
 */
module LogLevel {
  datatype Level = Trace | Debug | Info | Warn | Error

  /** The ASCII part of Rust's `char::to_lowercase`. */
  function LowerChar(c: char): (r: char)
    ensures 'A' <= c <= 'Z' ==> r as int == c as int + 32
    ensures !('A' <= c <= 'Z') ==> r == c
    ensures !('A' <= r <= 'Z')
  {
    if 'A' <= c <= 'Z' then (c as int + 32) as char else c
  }

  /** `str::to_lowercase`, restricted to ASCII letters. */
  function Lower(s: string): (r: string)
    ensures |r| == |s|
    ensures forall i :: 0 <= i < |s| ==> r[i] == LowerChar(s[i])
  {
    if |s| == 0 then "" else [LowerChar(s[0])] + Lower(s[1..])
  }

  /** The five names (and one alias) the match recognises. */
  const KnownNames: set<string> := {"trace", "debug", "warn", "warning", "error"}

  function ParseLogLevel(s: string): (l: Level)
    ensures l == Trace <==> Lower(s) == "trace"
    ensures l == Debug <==> Lower(s) == "debug"
    ensures l == Warn <==> (Lower(s) == "warn" || Lower(s) == "warning")
    ensures l == Error <==> Lower(s) == "error"
    ensures l == Info <==> Lower(s) !in KnownNames
  {
    match Lower(s)
    case "trace" => Trace
    case "debug" => Debug
    case "warn" => Warn
    case "warning" => Warn
    case "error" => Error
    case _ => Info
  }

  /** A canonical configuration name for each level. */
  function Name(l: Level): (s: string)
    ensures Lower(s) == s
  {
    match l
    case Trace => "trace"
    case Debug => "debug"
    case Info => "info"
    case Warn => "warn"
    case Error => "error"
  }

  /** Upper-cases ASCII letters; used to state case-insensitivity. */
  function Upper(s: string): (r: string)
    ensures |r| == |s|
    ensures forall i :: 0 <= i < |s| ==>
      r[i] == (if 'a' <= s[i] <= 'z' then (s[i] as int - 32) as char else s[i])
  {
    if |s| == 0 then "" else
      [if 'a' <= s[0] <= 'z' then (s[0] as int - 32) as char else s[0]] + Upper(s[1..])
  }

  /** Lower-casing twice is lower-casing once. */
  lemma {:induction false} LowerIdempotent(s: string)
    ensures Lower(Lower(s)) == Lower(s)
  {
    if |s| > 0 {
      LowerIdempotent(s[1..]);
      assert Lower(s)[1..] == Lower(s[1..]);
    }
  }

  /** The level depends only on the lower-cased name. */
  lemma ParseIgnoresCase(s: string)
    ensures ParseLogLevel(Lower(s)) == ParseLogLevel(s)
  {
    LowerIdempotent(s);
  }

  /** Upper-casing a lower-case name and lower-casing it again gives it back. */
  lemma {:induction false} LowerUpper(s: string)
    requires forall i :: 0 <= i < |s| ==> !('A' <= s[i] <= 'Z')
    ensures Lower(Upper(s)) == s
  {
    if |s| > 0 {
      LowerUpper(s[1..]);
      assert Upper(s)[1..] == Upper(s[1..]);
    }
  }

  /** Every level's name selects that level, in any letter case. */
  lemma NameRoundTrip(l: Level)
    ensures ParseLogLevel(Name(l)) == l
    ensures ParseLogLevel(Upper(Name(l))) == l
  {
    LowerUpper(Name(l));
  }

  /** "WARNING" is accepted as an alias for WARN; unknown names fall back to INFO. */
  lemma AliasAndDefault()
    ensures ParseLogLevel("WARNING") == Warn
    ensures ParseLogLevel("") == Info
    ensures ParseLogLevel("verbose") == Info
  {
    assert Lower("WARNING") == "warning";
    assert Lower("verbose") == "verbose";
  }
}
