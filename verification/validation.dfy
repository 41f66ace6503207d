/** The input validator: stateless, total checks applied to strings and
    integers at the API boundary. Every check returns a typed error rather
    than aborting. */
module Validation {
  import opened Wrappers
  import opened MachineInts
  import opened Seqs
  import Utf8

  const MAX_STRING_LENGTH: nat := 10_000
  const MAX_JOB_NAME_LENGTH: nat := 256
  const MAX_PATH_LENGTH: nat := 4096
  const MAX_COMMAND_LENGTH: nat := 65536

  /** Appended by `SanitizeLogMessage` to a truncated message. */
  const TRUNCATION_MARKER: string := "... [truncated]"

  datatype ValidationError =
    | Empty(field: string)
    | TooLong(field: string, max: int, actual: int)
    | InvalidChars(field: string, invalid: string)
    | ForbiddenPattern(field: string, pattern: string)
    | OutOfRange(field: string, min: int, max: int, actual: int)
    | Invalid(message: string)

  // ---------------------------------------------------------------------
  // Character classes

  /** Rust's `char::is_whitespace`: the Unicode White_Space property. */
  predicate IsWhitespace(c: char)
  {
    || ('\t' <= c <= '\r')
    || c == ' ' || c == '\U{85}' || c == '\U{A0}' || c == '\U{1680}'
    || ('\U{2000}' <= c <= '\U{200A}')
    || c == '\U{2028}' || c == '\U{2029}' || c == '\U{202F}' || c == '\U{205F}'
    || c == '\U{3000}'
  }

  /** Rust's `char::is_control`: general category Cc. */
  predicate IsControl(c: char)
  {
    c <= '\U{1F}' || ('\U{7F}' <= c <= '\U{9F}')
  }

  /** `char::is_alphanumeric`, restricted to ASCII letters and digits. */
  predicate IsAlphanumeric(c: char)
  {
    ('a' <= c <= 'z') || ('A' <= c <= 'Z') || ('0' <= c <= '9')
  }

  /** A character a job name may contain. */
  predicate IsJobNameChar(c: char)
  {
    IsAlphanumeric(c) || c == '-' || c == '_'
  }

  predicate IsNotJobNameChar(c: char)
  {
    !IsJobNameChar(c)
  }

  predicate AllWhitespace(s: string)
  {
    forall i :: 0 <= i < |s| ==> IsWhitespace(s[i])
  }

  // ---------------------------------------------------------------------
  // str::trim

  /** `str::trim_start`: the suffix left after dropping leading whitespace. */
  function TrimStart(s: string): (r: string)
    ensures |r| <= |s| && r == s[|s| - |r|..]
    ensures forall i :: 0 <= i < |s| - |r| ==> IsWhitespace(s[i])
    ensures r == [] || !IsWhitespace(r[0])
  {
    if s != [] && IsWhitespace(s[0]) then TrimStart(s[1..]) else s
  }

  /** `str::trim_end`: the prefix left after dropping trailing whitespace. */
  function TrimEnd(s: string): (r: string)
    ensures |r| <= |s| && r == s[..|r|]
    ensures forall i :: |r| <= i < |s| ==> IsWhitespace(s[i])
    ensures r == [] || !IsWhitespace(r[|r| - 1])
  {
    if s != [] && IsWhitespace(s[|s| - 1]) then TrimEnd(s[..|s| - 1]) else s
  }

  /** `str::trim`. */
  function Trim(s: string): string
  {
    TrimEnd(TrimStart(s))
  }

  /** Trimming leaves nothing exactly when every character is whitespace. */
  lemma TrimEmptyIffAllWhitespace(s: string)
    ensures Trim(s) == [] <==> AllWhitespace(s)
  {
    var t := TrimStart(s);
    if Trim(s) == [] {
      assert AllWhitespace(t);
    }
  }

  // ---------------------------------------------------------------------
  // Validator

  /** The validator's deny-list, listed in the (unspecified) iteration
      order of the hash set that holds it. */
  datatype Validator = Validator(forbiddenPatterns: seq<string>)

  /** The default deny-list: shell-injection operators and path traversal. */
  const DEFAULT_FORBIDDEN_PATTERNS: set<string> :=
    {"$((", "$(", "`", "&&", "||", ";", "|", ">", "<", ".."}

  /** A validator built by `Validator::default`: its deny-list holds exactly
      the default patterns, enumerated in some order. */
  ghost predicate IsDefault(v: Validator)
  {
    forall p :: p in v.forbiddenPatterns <==> p in DEFAULT_FORBIDDEN_PATTERNS
  }

  /** `Validator::default`, with the patterns in insertion order. */
  function DefaultValidator(): (v: Validator)
    ensures IsDefault(v)
  {
    Validator(["$((", "$(", "`", "&&", "||", ";", "|", ">", "<", ".."])
  }

  /** `require_non_empty`: fails iff `value` trims to nothing. */
  function RequireNonEmpty(field: string, value: string): (r: Result<(), ValidationError>)
    ensures r.Err? <==> AllWhitespace(value)
    ensures r.Err? ==> r.error == Empty(field)
  {
    TrimEmptyIffAllWhitespace(value);
    if Trim(value) == [] then Err(Empty(field)) else Ok(())
  }

  /** `validate_length`: fails iff the UTF-8 byte length exceeds `max`. */
  function ValidateLength(field: string, value: string, max: nat): (r: Result<(), ValidationError>)
    ensures r.Err? <==> Utf8.ByteLen(value) > max
    ensures r.Err? ==> r.error == TooLong(field, max, Utf8.ByteLen(value))
  {
    var len := Utf8.ByteLen(value);
    if len > max then Err(TooLong(field, max, len)) else Ok(())
  }

  /** The offending characters of a job name, in input order. */
  function InvalidJobNameChars(name: string): string
  {
    Filter(IsNotJobNameChar, name)
  }

  /** `validate_job_name`: non-empty, then at most 256 bytes, then only
      alphanumerics, `-` and `_`; the first failing check decides the error. */
  function ValidateJobName(name: string): (r: Result<(), ValidationError>)
    ensures AllWhitespace(name) ==> r == Err(Empty("job_name"))
    ensures !AllWhitespace(name) && Utf8.ByteLen(name) > MAX_JOB_NAME_LENGTH ==>
              r == Err(TooLong("job_name", MAX_JOB_NAME_LENGTH, Utf8.ByteLen(name)))
    ensures !AllWhitespace(name) && Utf8.ByteLen(name) <= MAX_JOB_NAME_LENGTH ==>
              (r.Ok? <==> forall i :: 0 <= i < |name| ==> IsJobNameChar(name[i]))
    ensures !AllWhitespace(name) && Utf8.ByteLen(name) <= MAX_JOB_NAME_LENGTH && InvalidJobNameChars(name) != [] ==>
              r == Err(InvalidChars("job_name", InvalidJobNameChars(name)))
    ensures r.Err? && r.error.InvalidChars? ==>
              r.error.field == "job_name" && r.error.invalid == InvalidJobNameChars(name) && r.error.invalid != [] &&
              forall i :: 0 <= i < |r.error.invalid| ==> !IsJobNameChar(r.error.invalid[i])
  {
    var nonEmpty := RequireNonEmpty("job_name", name);
    if nonEmpty.Err? then nonEmpty
    else
      var short := ValidateLength("job_name", name, MAX_JOB_NAME_LENGTH);
      if short.Err? then short
      else
        var invalid := InvalidJobNameChars(name);
        FilterEmptyIff(IsNotJobNameChar, name);
        if invalid != [] then Err(InvalidChars("job_name", invalid)) else Ok(())
  }

  /** A job name is accepted exactly when it has 1 to 256 characters, all
      alphanumerics, `-` or `_` (such names are ASCII, one byte a character). */
  lemma JobNameAccepted(name: string)
    ensures ValidateJobName(name).Ok? <==>
              0 < |name| <= MAX_JOB_NAME_LENGTH && forall i :: 0 <= i < |name| ==> IsJobNameChar(name[i])
  {
    if forall i :: 0 <= i < |name| ==> IsJobNameChar(name[i]) {
      Utf8.AsciiEncoding(name);
      if name != [] {
        assert !IsWhitespace(name[0]);
      }
    }
  }

  /** The characters reported for a rejected job name are exactly the
      offending ones, in order: the report of a concatenation is the
      concatenation of the reports. */
  lemma InvalidJobNameCharsConcat(a: string, b: string)
    ensures InvalidJobNameChars(a + b) == InvalidJobNameChars(a) + InvalidJobNameChars(b)
    ensures InvalidJobNameChars([' ']) == [' '] && InvalidJobNameChars(['x']) == []
  {
    FilterConcat(IsNotJobNameChar, a, b);
  }

  /** `validate_path`: at most 4096 bytes, then no `..`, then no NUL.
      The empty path is accepted. */
  function ValidatePath(path: string): (r: Result<(), ValidationError>)
    ensures r.Ok? <==> Utf8.ByteLen(path) <= MAX_PATH_LENGTH && !Contains(path, "..") && '\0' !in path
    ensures Utf8.ByteLen(path) > MAX_PATH_LENGTH ==>
              r == Err(TooLong("path", MAX_PATH_LENGTH, Utf8.ByteLen(path)))
    ensures Utf8.ByteLen(path) <= MAX_PATH_LENGTH && Contains(path, "..") ==>
              r == Err(ForbiddenPattern("path", ".."))
    ensures Utf8.ByteLen(path) <= MAX_PATH_LENGTH && !Contains(path, "..") && '\0' in path ==>
              r == Err(InvalidChars("path", "null byte"))
  {
    var short := ValidateLength("path", path, MAX_PATH_LENGTH);
    if short.Err? then short
    else if Contains(path, "..") then Err(ForbiddenPattern("path", ".."))
    else
      ContainsSingleton(path, '\0');
      if Contains(path, "\0") then Err(InvalidChars("path", "null byte"))
      else Ok(())
  }

  /** A path is refused as traversal exactly when two consecutive dots
      appear anywhere in it. */
  lemma TraversalIffAdjacentDots(path: string)
    ensures Contains(path, "..") <==>
              exists i :: 0 <= i < |path| - 1 && path[i] == '.' && path[i + 1] == '.'
  {
    ContainsIffOccurs(path, "..");
    if exists i :: 0 <= i < |path| - 1 && path[i] == '.' && path[i + 1] == '.' {
      var i :| 0 <= i < |path| - 1 && path[i] == '.' && path[i + 1] == '.';
      assert path[i..i + 2] == "..";
      assert OccursAt(path, "..", i);
    }
    if Contains(path, "..") {
      var i :| OccursAt(path, "..", i);
      assert path[i] == path[i..i + 2][0] && path[i + 1] == path[i..i + 2][1];
    }
  }

  /** The first pattern of `patterns`, in iteration order, that occurs in `command`. */
  function FirstForbidden(patterns: seq<string>, command: string): (r: Option<string>)
    ensures r.None? <==> forall i :: 0 <= i < |patterns| ==> !Contains(command, patterns[i])
    ensures r.Some? ==> r.value in patterns && Contains(command, r.value)
  {
    if patterns == [] then None
    else if Contains(command, patterns[0]) then Some(patterns[0])
    else FirstForbidden(patterns[1..], command)
  }

  /** `validate_command`: non-empty, then at most 65,536 bytes, then no
      deny-list pattern as a substring. Which pattern is reported depends on
      the deny-list's iteration order. */
  function ValidateCommand(v: Validator, command: string): (r: Result<(), ValidationError>)
    ensures AllWhitespace(command) ==> r == Err(Empty("command"))
    ensures !AllWhitespace(command) && Utf8.ByteLen(command) > MAX_COMMAND_LENGTH ==>
              r == Err(TooLong("command", MAX_COMMAND_LENGTH, Utf8.ByteLen(command)))
    ensures r.Ok? <==>
              && !AllWhitespace(command)
              && Utf8.ByteLen(command) <= MAX_COMMAND_LENGTH
              && forall p :: p in v.forbiddenPatterns ==> !Contains(command, p)
    ensures r.Err? && r.error.ForbiddenPattern? ==>
              r.error.field == "command" && r.error.pattern in v.forbiddenPatterns &&
              Contains(command, r.error.pattern)
  {
    var nonEmpty := RequireNonEmpty("command", command);
    if nonEmpty.Err? then nonEmpty
    else
      var short := ValidateLength("command", command, MAX_COMMAND_LENGTH);
      if short.Err? then short
      else
        match FirstForbidden(v.forbiddenPatterns, command)
        case Some(p) => Err(ForbiddenPattern("command", p))
        case None => Ok(())
  }

  lemma {:induction false} ContainsExtends(s: string, p: string, q: string)
    requires Contains(s, p + q)
    ensures Contains(s, p)
  {
    ContainsIffOccurs(s, p + q);
    ContainsIffOccurs(s, p);
    var i :| OccursAt(s, p + q, i);
    assert s[i..i + |p|] == (p + q)[..|p|] == p;
    assert OccursAt(s, p, i);
  }

  /** Under the default deny-list the verdict does not depend on the hash
      set's iteration order, and it reduces to: non-blank, at most 65,536
      bytes, none of the characters `` ` ``, `;`, `|`, `>`, `<`, and none of
      `$(`, `&&`, `..` (`$((` and `||` are subsumed by `$(` and `|`). */
  lemma DefaultCommandVerdict(v: Validator, command: string)
    requires IsDefault(v)
    ensures ValidateCommand(v, command).Ok? <==>
              && !AllWhitespace(command)
              && Utf8.ByteLen(command) <= MAX_COMMAND_LENGTH
              && '`' !in command && ';' !in command && '|' !in command
              && '>' !in command && '<' !in command
              && !Contains(command, "$(") && !Contains(command, "&&") && !Contains(command, "..")
  {
    DefaultPatternsAbsent(command);
    assert (forall p :: p in v.forbiddenPatterns ==> !Contains(command, p)) <==>
           (forall p :: p in DEFAULT_FORBIDDEN_PATTERNS ==> !Contains(command, p));
  }

  /** The default deny-list, reduced: `$((` and `||` add nothing, since
      `$(` and `|` already match wherever they do. */
  lemma DefaultPatternsAbsent(command: string)
    ensures (forall p :: p in DEFAULT_FORBIDDEN_PATTERNS ==> !Contains(command, p)) <==>
              && '`' !in command && ';' !in command && '|' !in command
              && '>' !in command && '<' !in command
              && !Contains(command, "$(") && !Contains(command, "&&") && !Contains(command, "..")
  {
    ContainsSingleton(command, '`');
    ContainsSingleton(command, ';');
    ContainsSingleton(command, '|');
    ContainsSingleton(command, '>');
    ContainsSingleton(command, '<');
    if Contains(command, "$((") {
      assert "$(" + "(" == "$((";
      ContainsExtends(command, "$(", "(");
    }
    if Contains(command, "||") {
      assert "|" + "|" == "||";
      ContainsExtends(command, "|", "|");
    }
  }

  /** `validate_range`: both bounds inclusive. */
  function ValidateRange(field: string, value: int64, min: int64, max: int64): (r: Result<(), ValidationError>)
    ensures r.Ok? <==> min <= value <= max
    ensures r.Err? ==> r.error == OutOfRange(field, min, max, value)
  {
    if value < min || value > max then Err(OutOfRange(field, min, max, value)) else Ok(())
  }

  function ValidateGpuCount(count: uint32): (r: Result<(), ValidationError>)
    ensures r.Ok? <==> count <= 1024
    ensures r.Err? ==> r.error == OutOfRange("gpu_count", 0, 1024, count)
  {
    ValidateRange("gpu_count", count, 0, 1024)
  }

  function ValidatePriority(priority: int32): (r: Result<(), ValidationError>)
    ensures r.Ok? <==> -1000 <= priority <= 1000
    ensures r.Err? ==> r.error == OutOfRange("priority", -1000, 1000, priority)
  {
    ValidateRange("priority", priority, -1000, 1000)
  }

  /** `validate_buffer_size`: the `usize` is cast to `i64` first, so sizes of
      2^63 and above arrive negative; they are still rejected. */
  function ValidateBufferSize(size: uint64): (r: Result<(), ValidationError>)
    ensures r.Ok? <==> 1 <= size <= 1024 * 1024 * 1024
    ensures r.Err? ==> r.error == OutOfRange("buffer_size", 1, 1024 * 1024 * 1024, AsInt64(size))
  {
    ValidateRange("buffer_size", AsInt64(size), 1, 1024 * 1024 * 1024)
  }

  // ---------------------------------------------------------------------
  // Sanitising

  /** Characters `sanitize_string` keeps: all but control characters,
      except that newline and tab are kept. */
  predicate IsKept(c: char)
  {
    !IsControl(c) || c == '\n' || c == '\t'
  }

  /** `sanitize_string`: drops control characters other than `\n` and `\t`. */
  function SanitizeString(input: string): (r: string)
    ensures forall i :: 0 <= i < |r| ==> IsKept(r[i])
    ensures forall i :: 0 <= i < |input| && IsKept(input[i]) ==> input[i] in r
    ensures (forall i :: 0 <= i < |input| ==> IsKept(input[i])) ==> r == input
  {
    if forall i :: 0 <= i < |input| ==> IsKept(input[i]) then
      FilterKeepsAll(IsKept, input);
      Filter(IsKept, input)
    else
      Filter(IsKept, input)
  }

  /** Sanitising is idempotent and distributes over concatenation, and a
      single character is kept or vanishes: together these fix the result
      as exactly the kept characters, in input order. */
  lemma SanitizeStringProperties(a: string, b: string)
    ensures SanitizeString(SanitizeString(a)) == SanitizeString(a)
    ensures SanitizeString(a + b) == SanitizeString(a) + SanitizeString(b)
    ensures forall c: char :: SanitizeString([c]) == if IsKept(c) then [c] else []
  {
    FilterIdempotent(IsKept, a);
    FilterConcat(IsKept, a, b);
    forall c: char ensures SanitizeString([c]) == if IsKept(c) then [c] else [] {
      assert [c][1..] == [];
    }
  }

  /** Failure of `sanitize_log_message`: the byte slice at 10,000 does not
      fall on a character boundary, which panics in the source. */
  datatype SliceError = SliceNotOnCharBoundary

  /** `sanitize_log_message`: the sanitised text, cut to its first 10,000
      bytes and marked when it is longer. */
  function SanitizeLogMessage(message: string): (r: Result<string, SliceError>)
    ensures var t := SanitizeString(message);
            Utf8.ByteLen(t) <= MAX_STRING_LENGTH ==> r == Ok(t)
    ensures var t := SanitizeString(message);
            Utf8.ByteLen(t) > MAX_STRING_LENGTH && r.Ok? ==>
              Utf8.Encode(r.value) ==
                Utf8.Encode(t)[..MAX_STRING_LENGTH] + Utf8.Encode(TRUNCATION_MARKER)
    ensures var t := SanitizeString(message);
            r.Err? <==>
              Utf8.ByteLen(t) > MAX_STRING_LENGTH &&
              forall k :: 0 <= k <= |t| ==> Utf8.ByteLen(t[..k]) != MAX_STRING_LENGTH
  {
    var t := SanitizeString(message);
    if Utf8.ByteLen(t) > MAX_STRING_LENGTH then
      match Utf8.BoundaryAt(t, MAX_STRING_LENGTH)
      case Some(k) =>
        Utf8.BoundaryPrefixEncoding(t, k);
        Utf8.EncodeConcat(t[..k], TRUNCATION_MARKER);
        Ok(t[..k] + TRUNCATION_MARKER)
      case None => Err(SliceNotOnCharBoundary)
    else
      Ok(t)
  }

  /** On ASCII input the cut always lands on a boundary: no panic, and a
      long message keeps exactly its first 10,000 sanitised characters. */
  lemma AsciiLogMessageNeverPanics(message: string)
    requires Utf8.IsAscii(message)
    ensures SanitizeLogMessage(message).Ok?
    ensures var t := SanitizeString(message);
            |t| > MAX_STRING_LENGTH ==> SanitizeLogMessage(message) == Ok(t[..MAX_STRING_LENGTH] + TRUNCATION_MARKER)
  {
    var t := SanitizeString(message);
    forall i | 0 <= i < |t| ensures (t[i] as int) < 0x80 {
      assert t[i] in message;
    }
    Utf8.AsciiEncoding(t);
    if |t| > MAX_STRING_LENGTH {
      Utf8.AsciiEncoding(t[..MAX_STRING_LENGTH]);
      var b := Utf8.BoundaryAt(t, MAX_STRING_LENGTH);
      if b.Some? {
        Utf8.AsciiEncoding(t[..b.value]);
      }
    }
  }
}
