// The lines of a unified diff: file headers, hunk headers and content lines.
module DiffText {
  import opened Wrappers
  import opened DiffRows

  // ---- File headers ----

  const FILE_MARK := "diff --git a/"

  predicate MarkAt(s: string, i: nat) { i + 3 <= |s| && s[i] == ' ' && s[i + 1] == 'b' && s[i + 2] == '/' }

  // The last place below limit where " b/" stands.
  function LastMark(s: string, limit: nat): (r: Option<nat>)
    ensures r.Some? ==> r.value < limit && MarkAt(s, r.value)
    ensures forall i: nat :: MarkAt(s, i) && i < limit ==> r.Some? && i <= r.value
  {
    if limit == 0 then None
    else if MarkAt(s, limit - 1) then Some(limit - 1)
    else LastMark(s, limit - 1)
  }

  // The path after the last " b/" of a header line.
  function HeaderPath(line: string): Option<string> {
    if !(FILE_MARK <= line) then None
    else
      var rest := line[|FILE_MARK|..];
      match LastMark(rest, |rest|)
      case Some(i) => Some(rest[i + 3..])
      case None => None
  }

  predicate HasMark(s: string) { exists i: nat {:trigger MarkAt(s, i)} :: i < |s| && MarkAt(s, i) }

  function FileHeader(oldPath: string, path: string): string { "diff --git a/" + oldPath + " b/" + path }

  // A header gives its path back exactly when the path does not itself hold " b/".
  lemma HeaderPathExactly(oldPath: string, path: string)
    ensures HeaderPath("diff --git a/" + oldPath + " b/" + path) == Some(path) <==> !HasMark(path)
    ensures HeaderPath("diff --git a/" + oldPath + " b/" + path).Some?
  {
    var line := "diff --git a/" + oldPath + " b/" + path;
    var rest := oldPath + " b/" + path;
    assert line == FILE_MARK + rest;
    assert line[|FILE_MARK|..] == rest;
    LastMarkExactly(oldPath, path);
    hide LastMark, HasMark;
  }

  lemma LastMarkExactly(oldPath: string, path: string)
    ensures var rest := oldPath + " b/" + path;
            var last := LastMark(rest, |rest|);
            last.Some? && last.value + 3 <= |rest| && (rest[last.value + 3..] == path <==> !HasMark(path))
  {
    var rest := oldPath + " b/" + path;
    var n := |oldPath|;
    assert MarkAt(rest, n);
    var last := LastMark(rest, |rest|).value;
    hide LastMark;
    assert rest[n + 3..] == path;
    MarksAfter(oldPath, path, last);
    if last > n {
      assert |rest[last + 3..]| < |path|;
    } else {
      forall i: nat | i < |path| ensures !MarkAt(path, i) {
        assert MarkAt(path, i) ==> MarkAt(rest, n + 3 + i);
      }
    }
  }

  // A mark is a space, a "b" and a slash, with anything before and after.
  lemma MarkSpelled(path: string)
    ensures HasMark(path) <==> exists a, b :: path == a + " b/" + b
  {
    if HasMark(path) {
      var i: nat :| i < |path| && MarkAt(path, i);
      assert path == path[..i] + " b/" + path[i + 3..];
    }
    forall a, b | path == a + " b/" + b ensures HasMark(path) {
      assert MarkAt(path, |a|);
    }
  }

  // The lines that are file headers, and the path each of them names.
  lemma HeaderExactly(line: string, path: string)
    ensures HeaderPath(line) == Some(path) <==> !HasMark(path) && exists x :: line == "diff --git a/" + x + " b/" + path
  {
    if HeaderPath(line) == Some(path) {
      var rest := line[|FILE_MARK|..];
      var i := LastMark(rest, |rest|).value;
      assert line == FILE_MARK + rest && rest == rest[..i] + " b/" + rest[i + 3..];
      assert line == "diff --git a/" + rest[..i] + " b/" + path;
      HeaderPathExactly(rest[..i], path);
    }
    if x :| line == "diff --git a/" + x + " b/" + path {
      HeaderPathExactly(x, path);
    }
  }

  lemma MarksAfter(oldPath: string, path: string, i: nat)
    ensures i > |oldPath| && MarkAt(oldPath + " b/" + path, i) ==> HasMark(path)
  {
    var rest := oldPath + " b/" + path;
    if i > |oldPath| && MarkAt(rest, i) {
      assert rest[|oldPath| + 1] == 'b' && rest[|oldPath| + 2] == '/';
      assert MarkAt(path, i - |oldPath| - 3);
    }
  }

  // A quoted path's header is not recognised at all.
  lemma QuotedHeaderMissed(rest: string)
    ensures HeaderPath("diff --git \"a/" + rest) == None
  {
    var line := "diff --git \"a/" + rest;
    assert line[11] == '"' && FILE_MARK[11] == 'a';
  }

  // ---- Hunk headers ----

  predicate IsDigit(c: char) { '0' <= c <= '9' }

  function DigitRun(s: string): (n: nat)
    ensures n <= |s|
  {
    if s == "" || !IsDigit(s[0]) then 0 else 1 + DigitRun(s[1..])
  }

  predicate AllDigits(s: string) { forall c :: c in s ==> IsDigit(c) }

  function Value(digits: string): nat
    requires AllDigits(digits)
  {
    if digits == "" then 0
    else
      var last := digits[|digits| - 1];
      assert last in digits;
      10 * Value(digits[..|digits| - 1]) + (last - '0') as nat
  }

  function Decimal(n: nat): (s: string)
    ensures s != "" && AllDigits(s)
  {
    var last := [(n % 10) as char + '0'];
    if n < 10 then last else Decimal(n / 10) + last
  }

  lemma {:induction false} DecimalValue(n: nat)
    ensures Value(Decimal(n)) == n
  {
    var s := Decimal(n);
    if n >= 10 {
      DecimalValue(n / 10);
      assert s[..|s| - 1] == Decimal(n / 10);
    } else {
      assert s[..0] == "";
    }
  }

  lemma {:induction false} DigitRunIs(digits: string, rest: string)
    requires AllDigits(digits) && (rest != "" ==> !IsDigit(rest[0]))
    ensures DigitRun(digits + rest) == |digits|
  {
    if digits == "" {
      assert digits + rest == rest;
    } else {
      assert (digits + rest)[1..] == digits[1..] + rest;
      DigitRunIs(digits[1..], rest);
    }
  }

  lemma {:induction false} DigitRunDigits(s: string)
    ensures AllDigits(s[..DigitRun(s)])
  {
    if s != "" && IsDigit(s[0]) {
      DigitRunDigits(s[1..]);
      assert s[..DigitRun(s)] == [s[0]] + s[1..][..DigitRun(s[1..])];
    }
  }

  // A number at the front, with what follows it.
  function Number(s: string): Option<(nat, string)> {
    var n := DigitRun(s);
    if n == 0 then None
    else
      DigitRunDigits(s);
      Some((Value(s[..n]), s[n..]))
  }

  // An optional line count.
  function SkipCount(s: string): string {
    if s != "" && s[0] == ',' && DigitRun(s[1..]) > 0 then s[1 + DigitRun(s[1..])..] else s
  }

  function After(prefix: string, s: string): Option<string> {
    if prefix <= s then Some(s[|prefix|..]) else None
  }

  // The two line numbers a hunk starts at.
  function HunkStart(line: string): Option<(nat, nat)> {
    match After("@@ -", line)
    case None => None
    case Some(s) =>
      match Number(s)
      case None => None
      case Some(left) =>
        match After(" +", SkipCount(left.1))
        case None => None
        case Some(t) =>
          match Number(t)
          case None => None
          case Some(right) => if " @@" <= SkipCount(right.1) then Some((left.0, right.0)) else None
  }

  function CountText(count: Option<nat>): string {
    match count
    case Some(n) => "," + Decimal(n)
    case None => ""
  }

  function HunkHeader(left: nat, leftCount: Option<nat>, right: nat, rightCount: Option<nat>, context: string): string {
    "@@ -" + (Decimal(left) + (CountText(leftCount) + (" +" + (Decimal(right)
        + (CountText(rightCount) + (" @@" + context))))))
  }

  lemma NumberReads(n: nat, rest: string)
    requires rest != "" ==> !IsDigit(rest[0])
    ensures Number(Decimal(n) + rest) == Some((n, rest))
  {
    var s := Decimal(n) + rest;
    DigitRunIs(Decimal(n), rest);
    DecimalValue(n);
    assert s[..|Decimal(n)|] == Decimal(n) && s[|Decimal(n)|..] == rest;
  }

  lemma CountSkips(count: Option<nat>, rest: string)
    requires rest != "" && rest[0] == ' '
    ensures SkipCount(CountText(count) + rest) == rest
    ensures !IsDigit((CountText(count) + rest)[0])
  {
    CountIsShape(count);
    ShapeSkips(CountText(count), rest);
  }

  lemma CountIsShape(count: Option<nat>)
    ensures CountShape(CountText(count))
  {
    if count.Some? {
      assert CountText(count)[1..] == Decimal(count.value);
    }
  }

  lemma AfterReads(prefix: string, rest: string)
    ensures After(prefix, prefix + rest) == Some(rest)
  {
    assert (prefix + rest)[|prefix|..] == rest;
  }

  // "@@ -l,n +r,m @@", either count left out, whatever follows.
  lemma HunkHeaderReads(left: nat, leftCount: Option<nat>, right: nat, rightCount: Option<nat>, context: string)
    ensures HunkStart(HunkHeader(left, leftCount, right, rightCount, context)) == Some((left, right))
    ensures HunkHeader(left, leftCount, right, rightCount, context)
         == "@@ -" + Decimal(left) + (if leftCount.Some? then "," + Decimal(leftCount.value) else "")
            + " +" + Decimal(right) + (if rightCount.Some? then "," + Decimal(rightCount.value) else "")
            + " @@" + context
  {
    HunkHeaderSpelled(left, leftCount, right, rightCount, context);
    hide Number, Decimal, SkipCount, CountText, After;
    var s6 := " @@" + context;
    var s5 := CountText(rightCount) + s6;
    var s4 := Decimal(right) + s5;
    var s3 := " +" + s4;
    var s2 := CountText(leftCount) + s3;
    var s1 := Decimal(left) + s2;
    AfterReads("@@ -", s1);
    CountSkips(leftCount, s3);
    NumberReads(left, s2);
    AfterReads(" +", s4);
    CountSkips(rightCount, s6);
    NumberReads(right, s5);
  }

  lemma HunkHeaderSpelled(left: nat, leftCount: Option<nat>, right: nat, rightCount: Option<nat>, context: string)
    ensures HunkHeader(left, leftCount, right, rightCount, context)
         == "@@ -" + Decimal(left) + (if leftCount.Some? then "," + Decimal(leftCount.value) else "")
            + " +" + Decimal(right) + (if rightCount.Some? then "," + Decimal(rightCount.value) else "")
            + " @@" + context
  {
    hide Decimal;
  }

  // Decimal writes numbers the usual way.
  lemma DecimalSpelled(n: nat)
    ensures n < 10 ==> Decimal(n) == ["0123456789"[n]]
    ensures n >= 10 ==> Decimal(n) == Decimal(n / 10) + ["0123456789"[n % 10]]
  {
  }

  // A hunk header as the pattern has it: two numbers, each perhaps with a count.
  ghost predicate HunkShape(line: string, d1: string, c1: string, d2: string, c2: string, rest: string) {
    && AllDigits(d1) && d1 != "" && AllDigits(d2) && d2 != "" && CountShape(c1) && CountShape(c2)
    && line == "@@ -" + (d1 + (c1 + (" +" + (d2 + (c2 + (" @@" + rest))))))
  }

  predicate CountShape(c: string) { c == "" || (|c| > 1 && c[0] == ',' && AllDigits(c[1..])) }

  // The lines that are hunk headers.
  lemma HunkExactly(line: string)
    ensures HunkStart(line).Some? <==> exists d1, c1, d2, c2, rest :: HunkShape(line, d1, c1, d2, c2, rest)
  {
    hide *;
    if HunkStart(line).Some? {
      var d1, c1, d2, c2, rest := ShapeOf(line);
    }
    if d1, c1, d2, c2, rest :| HunkShape(line, d1, c1, d2, c2, rest) {
      ShapeReads(line, d1, c1, d2, c2, rest);
    }
  }

  lemma ShapeOf(line: string) returns (d1: string, c1: string, d2: string, c2: string, rest: string)
    requires HunkStart(line).Some?
    ensures HunkShape(line, d1, c1, d2, c2, rest)
  {
    hide Number, SkipCount, AllDigits, CountShape;
    var s := AfterSplits("@@ -", line);
    var s1, s2, t, s3, s4;
    d1, s1 := NumberSplits(s);
    c1, s2 := CountSplits(s1);
    t := AfterSplits(" +", s2);
    d2, s3 := NumberSplits(t);
    c2, s4 := CountSplits(s3);
    rest := s4[3..];
    assert s4 == " @@" + rest;
  }

  lemma AfterSplits(prefix: string, s: string) returns (rest: string)
    requires After(prefix, s).Some?
    ensures After(prefix, s) == Some(rest) && s == prefix + rest
  {
    rest := s[|prefix|..];
  }

  lemma NumberSplits(s: string) returns (d: string, rest: string)
    requires Number(s).Some?
    ensures d != "" && AllDigits(d) && s == d + rest && Number(s).value.1 == rest
  {
    d, rest := s[..DigitRun(s)], s[DigitRun(s)..];
    DigitRunDigits(s);
  }

  lemma CountSplits(s: string) returns (c: string, rest: string)
    ensures CountShape(c) && s == c + rest && SkipCount(s) == rest
  {
    rest := SkipCount(s);
    c := s[..|s| - |rest|];
    if s != "" && s[0] == ',' && DigitRun(s[1..]) > 0 {
      DigitRunDigits(s[1..]);
      assert c[1..] == s[1..][..DigitRun(s[1..])];
    }
  }

  lemma ShapeReads(line: string, d1: string, c1: string, d2: string, c2: string, rest: string)
    requires HunkShape(line, d1, c1, d2, c2, rest)
    ensures HunkStart(line) == Some((Value(d1), Value(d2)))
  {
    var s6 := " @@" + rest;
    var s5 := c2 + s6;
    var s4 := d2 + s5;
    var s3 := " +" + s4;
    var s2 := c1 + s3;
    var s1 := d1 + s2;
    AfterReads("@@ -", s1);
    DigitsRead(d1, s2);
    ShapeSkips(c1, s3);
    AfterReads(" +", s4);
    DigitsRead(d2, s5);
    ShapeSkips(c2, s6);
    hide Number, SkipCount, After;
  }

  lemma DigitsRead(d: string, rest: string)
    requires AllDigits(d) && d != "" && (rest != "" ==> !IsDigit(rest[0]))
    ensures Number(d + rest) == Some((Value(d), rest))
  {
    DigitRunIs(d, rest);
    assert (d + rest)[..|d|] == d && (d + rest)[|d|..] == rest;
  }

  lemma ShapeSkips(c: string, rest: string)
    requires CountShape(c) && rest != "" && rest[0] == ' '
    ensures SkipCount(c + rest) == rest && !IsDigit((c + rest)[0])
  {
    var s := c + rest;
    if c == "" {
      assert s == rest;
    } else {
      var d := c[1..];
      assert s[1..] == d + rest;
      DigitRunIs(d, rest);
      hide DigitRun, AllDigits;
      assert s[1 + |d|..] == rest;
    }
  }

  // ---- Content lines ----

  function ReadOp(line: string): Option<Op> {
    if line == "" then None
    else if line[0] == '-' then Some(Op(Delete, line[1..]))
    else if line[0] == '+' then Some(Op(Insert, line[1..]))
    else if line[0] == ' ' then Some(Op(Equal, line[1..]))
    else None
  }

  function OpLine(op: Op): string {
    [match op.kind case Delete => '-' case Insert => '+' case Equal => ' '] + op.text
  }

  // Any other line is no content.
  lemma ContentExactly(line: string)
    ensures ReadOp(line).Some? <==> line != "" && line[0] in {'-', '+', ' '}
  {
  }

  // A line that starts neither a file nor a hunk.
  predicate Plain(line: string) { HeaderPath(line).None? && HunkStart(line).None? }

  lemma OpLineReads(op: Op)
    ensures ReadOp(OpLine(op)) == Some(op) && Plain(OpLine(op))
    ensures OpLine(op) == (if op.kind == Delete then "-" else if op.kind == Insert then "+" else " ") + op.text
  {
    var line := OpLine(op);
    assert line[1..] == op.text;
    PlainByFirst(line);
  }

  // Only 'd' and '@' can begin a header.
  lemma PlainByFirst(line: string)
    requires line == "" || (line[0] != 'd' && line[0] != '@')
    ensures Plain(line)
  {
    assert FILE_MARK[0] == 'd' && "@@ -"[0] == '@';
  }

  lemma HeadersApart(line: string)
    ensures !(HeaderPath(line).Some? && HunkStart(line).Some?)
  {
    assert FILE_MARK[0] == 'd' && "@@ -"[0] == '@';
  }
}
