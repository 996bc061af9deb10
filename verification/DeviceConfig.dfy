/** firmware/src/device_config.cpp: the checks on the device id and on the API base URL.

    A C string is a buffer whose only NUL is its last element, so every index proved in range is
    a read no further than the terminator. Unsigned arithmetic stays in the type `Word`, so every
    assignment proved well-typed is one that does not wrap. */
module DeviceSettings {
  import opened Wrappers

  type Word = x: int | 0 <= x < 0x1_0000_0000

  predicate IsCString(buffer: seq<char>) {
    |buffer| > 0 && buffer[|buffer| - 1] == '\0' && forall i :: 0 <= i < |buffer| - 1 ==> buffer[i] != '\0'
  }

  predicate IsDigit(c: char) {
    '0' <= c <= '9'
  }

  predicate IsNumeral(text: string) {
    text != [] && forall i :: 0 <= i < |text| ==> IsDigit(text[i])
  }

  /** What a decimal numeral denotes; leading zeros are allowed. */
  function Value(digits: string): (value: int)
    ensures (forall i :: 0 <= i < |digits| ==> IsDigit(digits[i])) ==> value >= 0
  {
    if digits == [] then 0 else Value(digits[..|digits| - 1]) * 10 + (digits[|digits| - 1] as int - '0' as int)
  }

  /** The end of the digits that start at `cursor`. */
  function RunEnd(buffer: seq<char>, cursor: nat): (end: nat)
    requires IsCString(buffer) && cursor < |buffer|
    ensures cursor <= end < |buffer| && !IsDigit(buffer[end])
    ensures forall i :: cursor <= i < end ==> IsDigit(buffer[i])
    decreases |buffer| - cursor
  {
    if !IsDigit(buffer[cursor]) then cursor else RunEnd(buffer, cursor + 1)
  }

  lemma {:induction false} RunEndsAt(buffer: seq<char>, cursor: nat, end: nat)
    requires IsCString(buffer) && cursor <= end < |buffer|
    requires !IsDigit(buffer[end]) && forall i :: cursor <= i < end ==> IsDigit(buffer[i])
    ensures RunEnd(buffer, cursor) == end
    decreases end - cursor
  {
    if cursor < end {
      RunEndsAt(buffer, cursor + 1, end);
    }
  }

  /** A longer numeral denotes at least as much. */
  lemma {:induction false} ValueGrows(digits: string, n: nat)
    requires n <= |digits| && forall i :: 0 <= i < |digits| ==> IsDigit(digits[i])
    ensures Value(digits[..n]) <= Value(digits)
    decreases |digits|
  {
    if n == |digits| {
      assert digits[..n] == digits;
    } else {
      var shorter := digits[..|digits| - 1];
      ValueGrows(shorter, n);
      assert shorter[..n] == digits[..n];
    }
  }

  /** `parse_number`: accepts exactly a non-empty run of digits that denotes at most `maximum`,
      and stops behind it. */
  method ParseNumber(buffer: seq<char>, cursor: nat, maximum: Word) returns (ok: bool, next: nat, result: Word)
    requires IsCString(buffer) && cursor < |buffer| && maximum >= 9
    ensures ok <==> cursor < RunEnd(buffer, cursor) && Value(buffer[cursor..RunEnd(buffer, cursor)]) <= maximum
    ensures ok ==> next == RunEnd(buffer, cursor) && result == Value(buffer[cursor..next])
  {
    next, result := cursor, 0;
    if buffer[cursor] < '0' || buffer[cursor] > '9' {
      return false, next, result;
    }
    ghost var end := RunEnd(buffer, cursor);
    ghost var digits := buffer[cursor..end];
    while next < |buffer| && buffer[next] >= '0' && buffer[next] <= '9'
      invariant cursor <= next <= end
      invariant result == Value(digits[..next - cursor]) <= maximum
    {
      var digit: Word := (buffer[next] - '0') as int;
      assert digits[..next + 1 - cursor][..next - cursor] == digits[..next - cursor];
      assert Value(digits[..next + 1 - cursor]) == result * 10 + digit;
      var room: Word := maximum - digit;
      if result > room / 10 {
        ValueGrows(digits, next + 1 - cursor);
        return false, next, result;
      }
      result := result * 10 + digit;
      next := next + 1;
    }
    assert digits[..next - cursor] == digits;
    ok := true;
  }

  // --- Private addresses ---

  predicate IsPrivateIpv4(octets: seq<Word>)
    requires |octets| == 4
  {
    || octets[0] == 10
    || (octets[0] == 172 && octets[1] >= 16 && octets[1] <= 31)
    || (octets[0] == 192 && octets[1] == 168)
  }

  predicate AreOctets(octets: seq<Word>) {
    |octets| == 4 && forall i :: 0 <= i < 4 ==> octets[i] <= 255
  }

  function Address(a: int, b: int, c: int, d: int): int {
    a * 0x100_0000 + b * 0x1_0000 + c * 0x100 + d
  }

  /** The three blocks of RFC 1918, section 3, as ranges of 32-bit addresses. */
  predicate InPrivateBlock(address: int) {
    || Address(10, 0, 0, 0) <= address <= Address(10, 255, 255, 255)
    || Address(172, 16, 0, 0) <= address <= Address(172, 31, 255, 255)
    || Address(192, 168, 0, 0) <= address <= Address(192, 168, 255, 255)
  }

  lemma PrivateExactly(octets: seq<Word>)
    requires AreOctets(octets)
    ensures IsPrivateIpv4(octets) <==> InPrivateBlock(Address(octets[0], octets[1], octets[2], octets[3]))
  {
    assert octets[0] <= 255 && octets[1] <= 255 && octets[2] <= 255 && octets[3] <= 255;
  }

  // --- The URL ---

  const SCHEME: string := "http://"

  function Separator(index: int): char {
    if index < 3 then '.' else ':'
  }

  /** The pieces of an accepted URL. */
  datatype Url = Url(octets: seq<string>, port: string, slashes: string) {
    predicate Valid() {
      && |octets| == 4
      && (forall k :: 0 <= k < 4 ==> IsOctet(octets[k]))
      && IsNumeral(port) && Value(port) == 8000
      && (forall i :: 0 <= i < |slashes| ==> slashes[i] == '/')
      && InPrivateBlock(Address(Value(octets[0]), Value(octets[1]), Value(octets[2]), Value(octets[3])))
    }

    function Text(): string {
      Upto(octets, |octets|) + port + slashes
    }
  }

  predicate IsOctet(text: string) {
    IsNumeral(text) && Value(text) <= 255
  }

  /** The scheme and the first `n` octets, each with the separator behind it. */
  function Upto(octets: seq<string>, n: nat): string
    requires n <= |octets|
  {
    if n == 0 then SCHEME else Upto(octets, n - 1) + octets[n - 1] + [Separator(n - 1)]
  }

  /** The language of local API URLs. */
  ghost predicate IsLocalUrl(text: string) {
    exists u: Url :: u.Valid() && text == u.Text()
  }

  lemma {:induction false} UptoPrefix(octets: seq<string>, pieces: seq<string>)
    requires pieces <= octets
    ensures Upto(octets, |pieces|) == Upto(pieces, |pieces|)
  {
    UptoAgrees(octets, pieces, |pieces|);
  }

  lemma {:induction false} UptoAgrees(octets: seq<string>, pieces: seq<string>, n: nat)
    requires n <= |pieces| && pieces <= octets
    ensures Upto(octets, n) == Upto(pieces, n)
  {
    if n > 0 {
      UptoAgrees(octets, pieces, n - 1);
    }
  }

  lemma {:induction false} UptoIsPrefix(octets: seq<string>, n: nat, m: nat)
    requires n <= m <= |octets|
    ensures Upto(octets, n) <= Upto(octets, m)
    decreases m
  {
    if n < m {
      UptoIsPrefix(octets, n, m - 1);
    }
  }

  predicate Written(buffer: seq<char>, u: Url) {
    u.Valid() && buffer == u.Text() + ['\0']
  }

  lemma PiecesOfPrefix(buffer: seq<char>, before: seq<char>, digits: string, stop: char)
    requires before + digits + [stop] <= buffer
    ensures |before| + |digits| < |buffer|
    ensures buffer[|before|..|before| + |digits|] == digits && buffer[|before| + |digits|] == stop
  {
    var whole := before + digits + [stop];
    assert buffer[..|whole|] == whole;
    assert whole[|before|..|before| + |digits|] == digits;
    assert whole[|before| + |digits|] == stop;
  }

  lemma DigitsAreRead(buffer: seq<char>, cursor: nat, digits: string)
    requires IsCString(buffer) && cursor + |digits| < |buffer|
    requires buffer[cursor..cursor + |digits|] == digits && !IsDigit(buffer[cursor + |digits|])
    requires IsNumeral(digits)
    ensures RunEnd(buffer, cursor) == cursor + |digits|
  {
    AllDigits(buffer, cursor, digits);
    RunEndsAt(buffer, cursor, cursor + |digits|);
  }

  predicate ReadsAs(buffer: seq<char>, cursor: nat, digits: string, stop: char)
    requires IsCString(buffer)
  {
    && cursor < |buffer|
    && RunEnd(buffer, cursor) == cursor + |digits|
    && buffer[cursor..cursor + |digits|] == digits
    && buffer[cursor + |digits|] == stop
  }

  lemma PrefixIsRead(buffer: seq<char>, before: seq<char>, digits: string, stop: char)
    requires IsCString(buffer) && IsNumeral(digits) && !IsDigit(stop)
    requires before + digits + [stop] <= buffer
    ensures ReadsAs(buffer, |before|, digits, stop)
  {
    PiecesOfPrefix(buffer, before, digits, stop);
    DigitsAreRead(buffer, |before|, digits);
  }

  lemma AllDigits(buffer: seq<char>, cursor: nat, digits: string)
    requires cursor + |digits| <= |buffer| && buffer[cursor..cursor + |digits|] == digits && IsNumeral(digits)
    ensures forall i :: cursor <= i < cursor + |digits| ==> IsDigit(buffer[i])
  {
    forall i | cursor <= i < cursor + |digits|
      ensures IsDigit(buffer[i])
    {
      assert buffer[i] == digits[i - cursor];
    }
  }

  lemma {:induction false} OctetIsWritten(buffer: seq<char>, u: Url, index: nat)
    requires Written(buffer, u) && index < |u.octets|
    ensures Upto(u.octets, index) + u.octets[index] + [Separator(index)] <= buffer
  {
    UptoIsPrefix(u.octets, index + 1, |u.octets|);
    assert Upto(u.octets, |u.octets|) <= u.Text();
  }

  /** Where a written URL has its next octet, the digits end behind it and its separator follows. */
  lemma {:induction false} OctetIsRead(buffer: seq<char>, u: Url, index: nat)
    requires IsCString(buffer) && Written(buffer, u) && index < |u.octets|
    ensures ReadsAs(buffer, |Upto(u.octets, index)|, u.octets[index], Separator(index))
  {
    OctetIsWritten(buffer, u, index);
    assert IsOctet(u.octets[index]);
    PrefixIsRead(buffer, Upto(u.octets, index), u.octets[index], Separator(index));
  }

  /** Behind the octets come the port's digits and then only slashes. */
  lemma PortIsRead(buffer: seq<char>, u: Url)
    requires IsCString(buffer) && Written(buffer, u)
    ensures ReadsAs(buffer, |Upto(u.octets, |u.octets|)|, u.port, (u.slashes + ['\0'])[0])
    ensures buffer[|Upto(u.octets, |u.octets|)| + |u.port|..] == u.slashes + ['\0']
  {
    var before, rest := Upto(u.octets, |u.octets|), u.slashes + ['\0'];
    assert rest[0] == '/' || rest[0] == '\0';
    SplitRest(before + u.port, rest);
    assert buffer == before + u.port + rest;
    PrefixIsRead(buffer, before, u.port, rest[0]);
  }

  lemma SplitRest(front: seq<char>, rest: seq<char>)
    requires rest != []
    ensures front + [rest[0]] <= front + rest && (front + rest)[|front|..] == rest
  {
  }

  method HasPrefix(buffer: seq<char>, prefix: string) returns (ok: bool)
    requires IsCString(buffer) && '\0' !in prefix
    ensures ok <==> prefix <= buffer
  {
    var i := 0;
    while i < |prefix|
      invariant 0 <= i <= |prefix| && i < |buffer|
      invariant prefix[..i] == buffer[..i]
    {
      if buffer[i] != prefix[i] {
        NotPrefix(buffer, prefix, i);
        return false;
      }
      assert prefix[i] in prefix;
      i := i + 1;
    }
    assert prefix[..i] == prefix;
    return true;
  }

  lemma NotPrefix(buffer: seq<char>, prefix: string, i: nat)
    requires i < |prefix| && i < |buffer| && buffer[i] != prefix[i]
    ensures !(prefix <= buffer)
  {
  }

  /** The state of the scan: some octets are read, and every URL that the buffer may hold starts
      with them. */
  ghost predicate OctetsRead(buffer: seq<char>, pieces: seq<string>, octets: seq<Word>, cursor: nat) {
    && cursor < |buffer| && |pieces| <= 4 == |octets|
    && buffer[..cursor] == Upto(pieces, |pieces|)
    && (forall k :: 0 <= k < |pieces| ==> IsOctet(pieces[k]) && octets[k] == Value(pieces[k]))
    && (forall u :: Written(buffer, u) ==> pieces <= u.octets)
  }

  predicate OctetFollows(buffer: seq<char>, cursor: nat, index: nat)
    requires IsCString(buffer) && cursor < |buffer|
  {
    var end := RunEnd(buffer, cursor);
    cursor < end && Value(buffer[cursor..end]) <= 255 && buffer[end] == Separator(index)
  }

  predicate PortFollows(buffer: seq<char>, cursor: nat)
    requires IsCString(buffer) && cursor < |buffer|
  {
    var end := RunEnd(buffer, cursor);
    && cursor < end && Value(buffer[cursor..end]) == 8000
    && forall i :: end <= i < |buffer| - 1 ==> buffer[i] == '/'
  }

  lemma FollowsFromReading(buffer: seq<char>, cursor: nat, digits: string, index: nat)
    requires IsCString(buffer) && ReadsAs(buffer, cursor, digits, Separator(index)) && IsOctet(digits)
    ensures OctetFollows(buffer, cursor, index) && buffer[cursor..RunEnd(buffer, cursor)] == digits
  {
  }

  lemma {:induction false} OctetFollowsWritten(buffer: seq<char>, pieces: seq<string>, u: Url, cursor: nat)
    requires IsCString(buffer) && Written(buffer, u) && cursor < |buffer|
    requires pieces <= u.octets && |pieces| < 4 && buffer[..cursor] == Upto(pieces, |pieces|)
    ensures OctetFollows(buffer, cursor, |pieces|) && buffer[cursor..RunEnd(buffer, cursor)] == u.octets[|pieces|]
  {
    UptoPrefix(u.octets, pieces);
    OctetIsRead(buffer, u, |pieces|);
    FollowsFromReading(buffer, cursor, u.octets[|pieces|], |pieces|);
  }

  lemma ExtendsPrefix(pieces: seq<string>, octets: seq<string>)
    requires pieces <= octets && |pieces| < |octets|
    ensures pieces + [octets[|pieces|]] <= octets
  {
  }

  lemma OctetIsNecessary(buffer: seq<char>, pieces: seq<string>, octets: seq<Word>, cursor: nat)
    requires IsCString(buffer) && OctetsRead(buffer, pieces, octets, cursor) && |pieces| < 4
    ensures forall u :: Written(buffer, u) ==>
              OctetFollows(buffer, cursor, |pieces|) && pieces + [buffer[cursor..RunEnd(buffer, cursor)]] <= u.octets
  {
    forall u | Written(buffer, u)
      ensures OctetFollows(buffer, cursor, |pieces|)
      ensures pieces + [buffer[cursor..RunEnd(buffer, cursor)]] <= u.octets
    {
      OctetFollowsWritten(buffer, pieces, u, cursor);
      ExtendsPrefix(pieces, u.octets);
    }
  }

  lemma OctetAdvances(buffer: seq<char>, pieces: seq<string>, octets: seq<Word>, cursor: nat, octet: Word)
    requires IsCString(buffer) && OctetsRead(buffer, pieces, octets, cursor) && |pieces| < 4
    requires OctetFollows(buffer, cursor, |pieces|) && octet == Value(buffer[cursor..RunEnd(buffer, cursor)])
    ensures OctetsRead(buffer, pieces + [buffer[cursor..RunEnd(buffer, cursor)]], octets[|pieces| := octet],
            RunEnd(buffer, cursor) + 1)
  {
    OctetIsNecessary(buffer, pieces, octets, cursor);
    ExtendUpto(buffer, pieces, cursor, RunEnd(buffer, cursor));
    assert buffer[RunEnd(buffer, cursor)] != '\0';
  }

  lemma {:induction false} PortFromReading(buffer: seq<char>, cursor: nat, port: string, slashes: string)
    requires IsCString(buffer) && ReadsAs(buffer, cursor, port, (slashes + ['\0'])[0])
    requires IsNumeral(port) && Value(port) == 8000
    requires buffer[cursor + |port|..] == slashes + ['\0'] && forall i :: 0 <= i < |slashes| ==> slashes[i] == '/'
    ensures PortFollows(buffer, cursor)
  {
    OnlySlashes(buffer, cursor + |port|, slashes);
    assert RunEnd(buffer, cursor) == cursor + |port|;
    assert buffer[cursor..RunEnd(buffer, cursor)] == port;
  }

  lemma {:induction false} PortFollowsWritten(buffer: seq<char>, pieces: seq<string>, u: Url, cursor: nat)
    requires IsCString(buffer) && Written(buffer, u) && cursor < |buffer|
    requires pieces <= u.octets && |pieces| == 4 && buffer[..cursor] == Upto(pieces, |pieces|)
    ensures PortFollows(buffer, cursor) && u.octets == pieces
  {
    UptoPrefix(u.octets, pieces);
    PortIsRead(buffer, u);
    PortFromReading(buffer, cursor, u.port, u.slashes);
  }

  lemma {:induction false} PortIsNecessary(buffer: seq<char>, pieces: seq<string>, octets: seq<Word>, cursor: nat)
    requires IsCString(buffer) && OctetsRead(buffer, pieces, octets, cursor) && |pieces| == 4
    ensures forall u :: Written(buffer, u) ==> PortFollows(buffer, cursor) && u.octets == pieces
  {
    forall u | Written(buffer, u)
      ensures PortFollows(buffer, cursor) && u.octets == pieces
    {
      PortFollowsWritten(buffer, pieces, u, cursor);
    }
  }

  lemma OnlySlashes(buffer: seq<char>, end: nat, slashes: string)
    requires end < |buffer| && buffer[end..] == slashes + ['\0']
    requires forall i :: 0 <= i < |slashes| ==> slashes[i] == '/'
    ensures forall i :: end <= i < |buffer| - 1 ==> buffer[i] == '/'
  {
    forall i | end <= i < |buffer| - 1
      ensures buffer[i] == '/'
    {
      assert buffer[i] == buffer[end..][i - end] == slashes[i - end];
    }
  }

  /** With four octets read, the buffer holds a URL exactly when the port and nothing but slashes
      follow and the address is private. */
  lemma RestDecides(buffer: seq<char>, pieces: seq<string>, octets: seq<Word>, cursor: nat)
    requires IsCString(buffer) && OctetsRead(buffer, pieces, octets, cursor) && |pieces| == 4
    ensures (exists u :: Written(buffer, u)) <==> PortFollows(buffer, cursor) && IsPrivateIpv4(octets)
  {
    PrivateExactly(octets);
    PortIsNecessary(buffer, pieces, octets, cursor);
    if PortFollows(buffer, cursor) && IsPrivateIpv4(octets) {
      Assembled(buffer, pieces, cursor, RunEnd(buffer, cursor), |buffer| - 1);
    }
  }

  /** The loop over the four octets and their separators. */
  method ReadOctets(buffer: seq<char>) returns (ok: bool, cursor: nat, octets: seq<Word>, ghost pieces: seq<string>)
    requires IsCString(buffer) && SCHEME <= buffer
    ensures ok ==> OctetsRead(buffer, pieces, octets, cursor) && |pieces| == 4
    ensures !ok ==> !(exists u :: Written(buffer, u))
  {
    ok, cursor, octets, pieces := true, |SCHEME|, [0, 0, 0, 0], [];
    var index: nat := 0;
    while index < 4
      invariant index <= 4 && |pieces| == index && OctetsRead(buffer, pieces, octets, cursor)
    {
      OctetIsNecessary(buffer, pieces, octets, cursor);
      var parsed, next, octet := ParseNumber(buffer, cursor, 255);
      if !parsed {
        return false, cursor, octets, pieces;
      }
      var expectedSeparator := if index < 3 then '.' else ':';
      if buffer[next] != expectedSeparator {
        return false, cursor, octets, pieces;
      }
      OctetAdvances(buffer, pieces, octets, cursor, octet);
      pieces := pieces + [buffer[cursor..next]];
      octets := octets[index := octet];
      cursor := next + 1;
      index := index + 1;
    }
  }

  /** The check accepts exactly the language, and reads no further than the terminator; None is a
      null pointer. */
  method IsValidLocalHttpUrl(url: Option<seq<char>>) returns (ok: bool)
    requires url.Some? ==> IsCString(url.value)
    ensures ok <==> url.Some? && IsLocalUrl(url.value[..|url.value| - 1])
  {
    if url.None? {
      return false;
    }
    var buffer := url.value;
    TextAsWritten(buffer);
    var hasScheme := HasPrefix(buffer, SCHEME);
    if !hasScheme {
      NoSchemeNoUrl(buffer);
      return false;
    }
    var parsedOctets, cursor, octets, pieces := ReadOctets(buffer);
    if !parsedOctets {
      return false;
    }
    RestDecides(buffer, pieces, octets, cursor);
    var parsedPort, next, port := ParseNumber(buffer, cursor, 65_535);
    if !parsedPort || port != 8_000 {
      return false;
    }
    while buffer[next] == '/'
      invariant RunEnd(buffer, cursor) <= next < |buffer|
      invariant forall i :: RunEnd(buffer, cursor) <= i < next ==> buffer[i] == '/'
      decreases |buffer| - next
    {
      next := next + 1;
    }
    ok := buffer[next] == '\0' && IsPrivateIpv4(octets);
  }

  lemma TextAsWritten(buffer: seq<char>)
    requires IsCString(buffer)
    ensures IsLocalUrl(buffer[..|buffer| - 1]) <==> exists u :: Written(buffer, u)
  {
    var text := buffer[..|buffer| - 1];
    assert buffer == text + ['\0'];
    if u: Url :| Written(buffer, u) {
      assert (u.Text() + ['\0'])[..|u.Text()|] == u.Text();
      assert text == u.Text();
    }
    if u: Url :| u.Valid() && text == u.Text() {
      assert Written(buffer, u);
    }
  }

  lemma NoSchemeNoUrl(buffer: seq<char>)
    requires IsCString(buffer) && !(SCHEME <= buffer)
    ensures !(exists u :: Written(buffer, u))
  {
    forall u
      ensures !Written(buffer, u)
    {
      if Written(buffer, u) {
        WrittenHasScheme(buffer, u);
      }
    }
  }

  lemma WrittenHasScheme(buffer: seq<char>, u: Url)
    requires Written(buffer, u)
    ensures SCHEME <= buffer
  {
    UptoIsPrefix(u.octets, 0, |u.octets|);
  }

  lemma SplitAt(buffer: seq<char>, cursor: nat, next: nat)
    requires cursor <= next < |buffer|
    ensures buffer[..next + 1] == buffer[..cursor] + buffer[cursor..next] + [buffer[next]]
  {
  }

  lemma {:induction false} ExtendUpto(buffer: seq<char>, pieces: seq<string>, cursor: nat, next: nat)
    requires cursor <= next < |buffer|
    requires buffer[..cursor] == Upto(pieces, |pieces|) && buffer[next] == Separator(|pieces|)
    ensures buffer[..next + 1] == Upto(pieces + [buffer[cursor..next]], |pieces| + 1)
  {
    var longer := pieces + [buffer[cursor..next]];
    UptoPrefix(longer, pieces);
    SplitAt(buffer, cursor, next);
    assert longer[|pieces|] == buffer[cursor..next];
  }

  lemma Assembled(buffer: seq<char>, pieces: seq<string>, cursor: nat, behind: nat, next: nat)
    requires IsCString(buffer) && cursor <= behind <= next < |buffer| && |pieces| == 4
    requires buffer[..cursor] == Upto(pieces, |pieces|) && buffer[next] == '\0'
    requires forall k :: 0 <= k < |pieces| ==> IsOctet(pieces[k])
    requires IsNumeral(buffer[cursor..behind]) && Value(buffer[cursor..behind]) == 8000
    requires forall i :: behind <= i < next ==> buffer[i] == '/'
    ensures InPrivateBlock(Address(Value(pieces[0]), Value(pieces[1]), Value(pieces[2]), Value(pieces[3]))) ==>
              Written(buffer, Url(pieces, buffer[cursor..behind], buffer[behind..next]))
  {
    var port, slashes := buffer[cursor..behind], buffer[behind..next];
    Rejoin(buffer, cursor, behind, next);
    assert Url(pieces, port, slashes).Text() == buffer[..cursor] + port + slashes;
    assert forall i :: 0 <= i < |slashes| ==> slashes[i] == '/';
  }

  lemma Rejoin(buffer: seq<char>, cursor: nat, behind: nat, next: nat)
    requires cursor <= behind <= next == |buffer| - 1
    ensures buffer == buffer[..cursor] + buffer[cursor..behind] + buffer[behind..next] + [buffer[next]]
  {
  }

  // --- The device id ---

  predicate IsLowerAlphanumeric(c: char) {
    'a' <= c <= 'z' || '0' <= c <= '9'
  }

  predicate IsInner(c: char) {
    IsLowerAlphanumeric(c) || c == '-'
  }

  /** The regular language of the backend's device table: one lower-case letter or digit, or two
      of them around at most 62 letters, digits and hyphens. */
  ghost predicate IsDeviceId(text: string) {
    || (|text| == 1 && IsLowerAlphanumeric(text[0]))
    || (exists first: char, inner: string, last: char :: AreIdParts(text, first, inner, last))
  }

  predicate AreIdParts(text: string, first: char, inner: string, last: char) {
    && text == [first] + inner + [last]
    && IsLowerAlphanumeric(first) && IsLowerAlphanumeric(last)
    && |inner| <= 62 && forall i :: 0 <= i < |inner| ==> IsInner(inner[i])
  }

  predicate HasIdShape(text: string) {
    && 1 <= |text| <= 64
    && IsLowerAlphanumeric(text[0]) && IsLowerAlphanumeric(text[|text| - 1])
    && forall i :: 0 <= i < |text| ==> IsInner(text[i])
  }

  lemma DeviceIdShape(text: string)
    ensures IsDeviceId(text) <==> HasIdShape(text)
  {
    if HasIdShape(text) && |text| > 1 {
      assert AreIdParts(text, text[0], text[1..|text| - 1], text[|text| - 1]);
    }
    forall first: char, inner: string, last: char | AreIdParts(text, first, inner, last)
      ensures HasIdShape(text)
    {
      assert forall i :: 0 <= i < |inner| ==> text[i + 1] == inner[i];
    }
  }

  /** The firmware accepts exactly the device ids that the backend's constraint accepts. */
  method IsValidDeviceId(buffer: Option<seq<char>>) returns (ok: bool)
    requires buffer.Some? ==> IsCString(buffer.value)
    ensures ok <==> buffer.Some? && IsDeviceId(buffer.value[..|buffer.value| - 1])
  {
    if buffer.None? {
      return false;
    }
    DeviceIdShape(buffer.value[..|buffer.value| - 1]);
    if |buffer.value| - 1 == 0 {
      return false;
    }
    var value, length := buffer.value, |buffer.value| - 1;
    ghost var text := value[..length];
    if length > 64 || value[0] == '-' || value[length - 1] == '-' {
      return false;
    }
    var index := 0;
    while index < length
      invariant 0 <= index <= length
      invariant forall i :: 0 <= i < index ==> IsInner(text[i])
    {
      var character := value[index];
      var lowerAlphanumeric := ('a' <= character && character <= 'z') || ('0' <= character && character <= '9');
      if !lowerAlphanumeric && character != '-' {
        assert !IsInner(text[index]) && !HasIdShape(text);
        return false;
      }
      index := index + 1;
    }
    ok := true;
  }
}
