/** The arguments of a process and the stack it starts with. */
module InitialStack {
  import opened Bytes
  import opened Frames
  import opened PageTables
  import opened Elf

  const USER_MAX_ARGS := 8
  const USER_ARG_MAX := 64

  // ---- user_process_set_args ----

  /** user_process_copy_arg: at most 63 characters. */
  function CopyArg(s: seq<byte>): (r: seq<byte>)
    ensures |r| < USER_ARG_MAX && r <= s
  {
    s[..Min(|s|, USER_ARG_MAX - 1)]
  }

  function SkipSpaces(s: seq<byte>, i: nat): (j: nat)
    requires i <= |s|
    ensures i <= j <= |s| && (j < |s| ==> s[j] != SPACE) && forall k :: i <= k < j ==> s[k] == SPACE
    decreases |s| - i
  {
    if i < |s| && s[i] == SPACE then SkipSpaces(s, i + 1) else i
  }

  function WordEnd(s: seq<byte>, i: nat): (j: nat)
    requires i <= |s|
    ensures i <= j <= |s| && (j < |s| ==> s[j] == SPACE) && forall k :: i <= k < j ==> s[k] != SPACE
    decreases |s| - i
  {
    if i < |s| && s[i] != SPACE then WordEnd(s, i + 1) else i
  }

  /** The space-separated words of a string from i on. */
  function Words(s: seq<byte>, i: nat): seq<seq<byte>>
    requires i <= |s|
    decreases |s| - i
  {
    var a := SkipSpaces(s, i);
    if a == |s| then [] else [s[a..WordEnd(s, a)]] + Words(s, WordEnd(s, a))
  }

  // ---- words and spaces ----

  predicate NoSpace(s: seq<byte>) {
    forall i :: 0 <= i < |s| ==> s[i] != SPACE
  }

  /** From i on the string is nothing but these words, each behind a number of spaces, and a space or the end behind each. */
  ghost predicate Spaced(s: seq<byte>, i: nat, words: seq<(nat, seq<byte>)>)
    decreases |words|
  {
    if words == [] then i <= |s| && forall k :: i <= k < |s| ==> s[k] == 0x20
    else
      var a, w := i + words[0].0, words[0].1;
      && a + |w| <= |s| && w != [] && NoSpace(w)
      && (forall k :: i <= k < a ==> s[k] == 0x20) && (forall k :: 0 <= k < |w| ==> s[a + k] == w[k])
      && (a + |w| < |s| ==> s[a + |w|] == 0x20) && Spaced(s, a + |w|, words[1..])
  }

  lemma {:induction false} SkipsTo(s: seq<byte>, i: nat, j: nat)
    requires i <= j <= |s| && (forall k :: i <= k < j ==> s[k] == SPACE) && (j < |s| ==> s[j] != SPACE)
    ensures SkipSpaces(s, i) == j
    decreases j - i
  {
    if i < j {
      SkipsTo(s, i + 1, j);
    }
  }

  lemma {:induction false} EndsAt(s: seq<byte>, i: nat, j: nat)
    requires i <= j <= |s| && (forall k :: i <= k < j ==> s[k] != SPACE) && (j < |s| ==> s[j] == SPACE)
    ensures WordEnd(s, i) == j
    decreases j - i
  {
    if i < j {
      EndsAt(s, i + 1, j);
    }
  }

  lemma FirstWord(s: seq<byte>, i: nat, words: seq<(nat, seq<byte>)>)
    requires words != [] && Spaced(s, i, words)
    ensures
      var a, w := i + words[0].0, words[0].1;
      i <= |s| && SkipSpaces(s, i) == a < |s| && WordEnd(s, a) == a + |w| && s[a..a + |w|] == w
  {
    var a, w := i + words[0].0, words[0].1;
    assert s[a + 0] == w[0];
    SkipsTo(s, i, a);
    forall k | a <= k < a + |w| ensures s[k] != SPACE {
      assert s[a + (k - a)] == w[k - a];
    }
    EndsAt(s, a, a + |w|);
  }

  lemma WordsStep(s: seq<byte>, i: nat, a: nat, b: nat)
    requires i <= |s| && SkipSpaces(s, i) == a < |s| && WordEnd(s, a) == b
    ensures Words(s, i) == [s[a..b]] + Words(s, b)
  {
  }

  /** The words of a string are what stands between its spaces, however many there are. */
  lemma {:induction false} WordsSpaced(s: seq<byte>, i: nat, words: seq<(nat, seq<byte>)>)
    requires i <= |s| && Spaced(s, i, words)
    ensures |Words(s, i)| == |words| && forall k :: 0 <= k < |words| ==> Words(s, i)[k] == words[k].1
    decreases |words|
  {
    if words == [] {
      SkipsTo(s, i, |s|);
    } else {
      FirstWord(s, i, words);
      var b := i + words[0].0 + |words[0].1|;
      WordsStep(s, i, i + words[0].0, b);
      WordsSpaced(s, b, words[1..]);
      forall k | 0 <= k < |words| ensures Words(s, i)[k] == words[k].1 {
        assert k > 0 ==> words[1..][k - 1] == words[k] && Words(s, i)[k] == Words(s, b)[k - 1];
      }
    }
  }

  /** The first n words, cut to the length that fits. */
  function FirstArgs(words: seq<seq<byte>>, n: nat): (r: seq<seq<byte>>)
    ensures |r| == Min(|words|, n)
    ensures forall i :: 0 <= i < |r| ==> r[i] == CopyArg(words[i])
  {
    if words == [] || n == 0 then [] else [CopyArg(words[0])] + FirstArgs(words[1..], n - 1)
  }

  /** A string that ends in a zero byte. */
  ghost predicate Terminated(s: seq<byte>, n: nat) {
    n < |s| && s[n] == 0 && forall k :: 0 <= k < n ==> s[k] != 0
  }

  /** One word of user_process_set_args from i on: cut off by a zero byte, copied, and the byte put back. */
  method TakeWord(args: array<byte>, i: nat, ghost n: nat) returns (found: bool, word: seq<byte>, j: nat)
    requires Terminated(args[..], n) && i <= n
    modifies args
    ensures args[..] == old(args[..]) && i <= j <= n
    ensures
      var s := old(args[..n]);
      var a := SkipSpaces(s, i);
      && (found <==> a < n) && (found ==> word == CopyArg(s[a..WordEnd(s, a)]) && j == WordEnd(s, a) > i)
  {
    ghost var s := args[..n];
    j := i;
    while args[j] == SPACE
      invariant i <= j <= n && SkipSpaces(s, i) == SkipSpaces(s, j)
      decreases n - j
    {
      j := j + 1;
    }
    if args[j] == 0 {
      return false, [], j;
    }
    var start := j;
    while args[j] != 0 && args[j] != SPACE
      invariant start <= j <= n && WordEnd(s, start) == WordEnd(s, j)
      decreases n - j
    {
      j := j + 1;
    }
    var saved := args[j];
    args[j] := 0;
    word := CopyArg(args[start..j]);
    args[j] := saved;
    found := true;
  }

  lemma NextArg(s: seq<byte>, i: nat, m: nat)
    requires i <= |s| && m > 0
    ensures
      var a := SkipSpaces(s, i);
      FirstArgs(Words(s, i), m)
        == if a == |s| then [] else [CopyArg(s[a..WordEnd(s, a)])] + FirstArgs(Words(s, WordEnd(s, a)), m - 1)
  {
    var a := SkipSpaces(s, i);
    if a < |s| {
      assert Words(s, i)[1..] == Words(s, WordEnd(s, a));
    }
  }

  /** The arguments a program is started with. */
  function Args(program: seq<byte>, args: seq<byte>): (r: seq<seq<byte>>)
    ensures 1 <= |r| <= USER_MAX_ARGS && forall i :: 0 <= i < |r| ==> |r[i]| < USER_ARG_MAX
  {
    [CopyArg(program)] + FirstArgs(Words(args, 0), USER_MAX_ARGS - 1)
  }

  /** The program's name and at most seven words, each cut to 63 characters. */
  lemma ArgsSpaced(program: seq<byte>, s: seq<byte>, words: seq<(nat, seq<byte>)>, k: nat)
    requires Spaced(s, 0, words)
    ensures |Args(program, s)| == Min(8, 1 + |words|) && Args(program, s)[0] == program[..Min(|program|, 63)]
    ensures 0 < k < |Args(program, s)| ==> Args(program, s)[k] == words[k - 1].1[..Min(|words[k - 1].1|, 63)]
  {
    WordsSpaced(s, 0, words);
    if 0 < k < |Args(program, s)| {
      assert Args(program, s)[k] == FirstArgs(Words(s, 0), 7)[k - 1] == CopyArg(Words(s, 0)[k - 1]);
    }
  }

  /** user_process_set_args; without an argument string there is the program's name only. */
  method SetArgs(program: seq<byte>, args: array?<byte>, ghost n: nat) returns (argv: seq<seq<byte>>)
    requires args != null ==> Terminated(args[..], n)
    modifies if args == null then {} else {args}
    ensures args == null ==> argv == [CopyArg(program)]
    ensures args != null ==> args[..] == old(args[..]) && argv == Args(program, old(args[..n]))
  {
    if args == null {
      argv := [CopyArg(program)];
    } else {
      argv := SplitArgs(program, args, n);
    }
  }

  /** The argument string is taken apart, and left as it was. */
  method SplitArgs(program: seq<byte>, args: array<byte>, ghost n: nat) returns (argv: seq<seq<byte>>)
    requires Terminated(args[..], n)
    modifies args
    ensures args[..] == old(args[..]) && argv == Args(program, old(args[..n]))
  {
    ghost var s := args[..n];
    argv := [CopyArg(program)];
    var i := 0;
    while args[i] != 0 && |argv| < USER_MAX_ARGS
      invariant 0 <= i <= n && args[..] == old(args[..]) && 1 <= |argv| <= USER_MAX_ARGS
      invariant argv + FirstArgs(Words(s, i), USER_MAX_ARGS - |argv|) == Args(program, s)
      decreases n - i
    {
      NextArg(s, i, USER_MAX_ARGS - |argv|);
      var found, word, j := TakeWord(args, i, n);
      if !found {
        return;
      }
      assert (argv + [word]) + FirstArgs(Words(s, j), USER_MAX_ARGS - |argv| - 1)
          == argv + ([word] + FirstArgs(Words(s, j), USER_MAX_ARGS - |argv| - 1));
      argv, i := argv + [word], j;
    }
  }

  // ---- user_process_build_initial_stack ----

  /** The word at an address of the stack page. */
  function WordAt(page: Page, addr: nat): u32
    requires STACK_START <= addr && addr + 4 <= USER_STACK_TOP
  {
    U32At(page, addr - STACK_START)
  }

  function PutWord(page: Page, addr: nat, v: u32): Page
    requires STACK_START <= addr && addr + 4 <= USER_STACK_TOP
  {
    Patch(page, addr - STACK_START, U32Bytes(v))
  }

  lemma PutWordAt(page: Page, addr: nat, v: u32, x: nat)
    requires STACK_START <= addr && addr + 4 <= USER_STACK_TOP && STACK_START <= x && x + 4 <= USER_STACK_TOP
    requires x == addr || x + 4 <= addr || addr + 4 <= x
    ensures WordAt(PutWord(page, addr, v), x) == if x == addr then v else WordAt(page, x)
  {
    var q, b := PutWord(page, addr, v), U32Bytes(v);
    assert x == addr ==> forall k :: 0 <= k < 4 ==> q[addr - STACK_START + k] == b[k];
  }

  /** A zero-terminated string lies at an address of the stack page. */
  ghost predicate StringAt(page: Page, addr: nat, s: seq<byte>) {
    && STACK_START <= addr && addr + |s| + 1 <= USER_STACK_TOP
    && page[addr - STACK_START..addr - STACK_START + |s|] == s && page[addr - STACK_START + |s|] == 0
  }

  /** The strings from argument k on are at their addresses, none below sp. */
  ghost predicate StringsAt(page: Page, argv: seq<seq<byte>>, ptrs: seq<u32>, k: nat, sp: nat) {
    |ptrs| == |argv| && forall i :: k <= i < |argv| ==> sp <= ptrs[i] && StringAt(page, ptrs[i], argv[i])
  }

  /** Writing below an address leaves the strings above it. */
  lemma StringsStay(page: Page, page': Page, argv: seq<seq<byte>>, ptrs: seq<u32>, k: nat, sp: nat, sp': nat)
    requires StringsAt(page, argv, ptrs, k, sp) && STACK_START <= sp <= USER_STACK_TOP && sp' <= sp
    requires forall x :: sp - STACK_START <= x < FRAME_SIZE ==> page'[x] == page[x]
    ensures StringsAt(page', argv, ptrs, k, sp')
  {
    forall i | k <= i < |argv| ensures StringAt(page', ptrs[i], argv[i]) {
      var o := ptrs[i] - STACK_START;
      assert StringAt(page, ptrs[i], argv[i]);
      assert page'[o..o + |argv[i]|] == page[o..o + |argv[i]|];
    }
  }

  /** The strings of the arguments are pushed, the last one first; there is always room. */
  method PushStrings(argv: seq<seq<byte>>) returns (ok: bool, page: Page, sp: u32, ptrs: seq<u32>)
    requires |argv| <= USER_MAX_ARGS && forall i :: 0 <= i < |argv| ==> |argv[i]| < USER_ARG_MAX
    ensures ok && USER_STACK_TOP - USER_MAX_ARGS * USER_ARG_MAX <= sp <= USER_STACK_TOP
    ensures StringsAt(page, argv, ptrs, 0, sp)
  {
    page, sp, ptrs := Zeros(), USER_STACK_TOP, seq(|argv|, _ => 0);
    var i := |argv|;
    while i > 0
      invariant 0 <= i <= |argv| && USER_STACK_TOP - (|argv| - i) * USER_ARG_MAX <= sp <= USER_STACK_TOP
      invariant StringsAt(page, argv, ptrs, i, sp)
    {
      i := i - 1;
      var s := argv[i] + [0];
      if sp < STACK_START + |s| {
        assert false;
        return false, page, sp, ptrs;
      }
      ghost var was, top := page, sp;
      sp := sp - |s|;
      page := Patch(page, sp - STACK_START, s);
      ptrs := ptrs[i := sp];
      StringsStay(was, page, argv, ptrs, i + 1, top, sp);
      assert page[sp - STACK_START..sp - STACK_START + |argv[i]|] == argv[i];
    }
    ok := true;
  }

  /** The words ws lie from addr on. */
  ghost predicate WordsAt(page: Page, addr: nat, ws: seq<int>) {
    && STACK_START <= addr && addr + 4 * |ws| <= USER_STACK_TOP
    && forall k :: 0 <= k < |ws| ==> WordAt(page, addr + 4 * k) == ws[k]
  }

  lemma PushedWordAt(page: Page, sp: nat, ws: seq<int>, v: u32, k: nat, x: nat)
    requires WordsAt(page, sp, ws) && STACK_START + 4 <= sp && k < |ws| && x == sp + 4 * k
    ensures WordAt(PutWord(page, sp - 4, v), x) == ws[k]
  {
    WordIs(page, sp, ws, k, x);
    PutWordAt(page, sp - 4, v, x);
  }

  lemma PushedAt(page: Page, sp: nat, ws: seq<int>, v: u32, k: nat, x: nat)
    requires WordsAt(page, sp, ws) && STACK_START + 4 <= sp && k <= |ws| && x == sp - 4 + 4 * k
    ensures WordAt(PutWord(page, sp - 4, v), x) == ([v as int] + ws)[k]
  {
    if k == 0 {
      PutWordAt(page, sp - 4, v, x);
    } else {
      PushedWordAt(page, sp, ws, v, k - 1, x);
    }
  }

  lemma PushedWords(page: Page, sp: nat, ws: seq<int>, v: u32)
    requires WordsAt(page, sp, ws) && STACK_START + 4 <= sp
    ensures WordsAt(PutWord(page, sp - 4, v), sp - 4, [v] + ws)
  {
    forall k | 0 <= k < |[v as int] + ws| ensures WordAt(PutWord(page, sp - 4, v), sp - 4 + 4 * k) == ([v as int] + ws)[k] {
      PushedAt(page, sp, ws, v, k, sp - 4 + 4 * k);
    }
  }

  lemma PutBelow(page: Page, addr: nat, v: u32)
    requires STACK_START <= addr && addr + 4 <= USER_STACK_TOP
    ensures forall x :: addr + 4 - STACK_START <= x < FRAME_SIZE ==> PutWord(page, addr, v)[x] == page[x]
  {
  }

  /** A word is pushed below the words ws, which lie below the strings. */
  method Push(page: Page, sp: u32, v: u32, ghost ws: seq<int>, ghost argv: seq<seq<byte>>, ghost ptrs: seq<u32>, ghost low: nat)
    returns (page': Page, sp': u32)
    requires WordsAt(page, sp, ws) && STACK_START + 4 <= sp && StringsAt(page, argv, ptrs, 0, low) && sp <= low <= USER_STACK_TOP
    ensures sp' == sp - 4 && WordsAt(page', sp', [v] + ws) && StringsAt(page', argv, ptrs, 0, low)
  {
    sp' := sp - 4;
    page' := PutWord(page, sp', v);
    PushedWords(page, sp, ws, v);
    PutBelow(page, sp', v);
    StringsStay(page, page', argv, ptrs, 0, low, low);
  }

  /** The pointers to the arguments are pushed, the last one first. */
  method PushPointers(page: Page, sp: u32, ptrs: seq<u32>, ghost argv: seq<seq<byte>>, ghost low: nat)
    returns (page': Page, sp': u32)
    requires WordsAt(page, sp, [0, 0]) && STACK_START + 4 * |ptrs| <= sp && StringsAt(page, argv, ptrs, 0, low) && sp <= low <= USER_STACK_TOP
    ensures sp' == sp - 4 * |ptrs| && WordsAt(page', sp', ptrs + [0, 0]) && StringsAt(page', argv, ptrs, 0, low)
  {
    page', sp' := page, sp;
    var i := |ptrs|;
    assert ptrs[i..] + [0, 0] == [0, 0];
    while i > 0
      invariant 0 <= i <= |ptrs| && sp' == sp - 4 * (|ptrs| - i)
      invariant WordsAt(page', sp', ptrs[i..] + [0, 0]) && StringsAt(page', argv, ptrs, 0, low)
    {
      page', sp' := Push(page', sp', ptrs[i - 1], ptrs[i..] + [0, 0], argv, ptrs, low);
      i := i - 1;
      assert [ptrs[i]] + (ptrs[i + 1..] + [0, 0]) == ptrs[i..] + [0, 0];
    }
  }

  /** What a program finds from its entry stack pointer on: argc, argv and envp, and behind them the arguments. */
  ghost predicate StackOf(page: Page, entry: nat, argv: seq<seq<byte>>, ptrs: seq<u32>) {
    && entry % 4 == 0 && |ptrs| == |argv|
    && WordsAt(page, entry, [|argv|, entry + 12, entry + 12 + 4 * (|argv| + 1)] + (ptrs + [0, 0]))
    && forall i :: 0 <= i < |argv| ==> StringAt(page, ptrs[i], argv[i])
  }

  /** user_process_build_initial_stack: with at most eight arguments of at most 63 characters it does not fail. */
  method BuildInitialStack(argv: seq<seq<byte>>) returns (ok: bool, page: Page, entry: u32, ghost ptrs: seq<u32>)
    requires |argv| <= USER_MAX_ARGS && forall i :: 0 <= i < |argv| ==> |argv[i]| < USER_ARG_MAX
    ensures ok && StackOf(page, entry, argv, ptrs)
  {
    var sp, strings;
    ok, page, sp, strings := PushStrings(argv);
    ptrs := strings;
    var argc := |argv|;
    sp := sp / 4 * 4;
    ghost var low := sp;
    StringsStay(page, page, argv, ptrs, 0, sp, sp);
    entry := sp;
    if sp < STACK_START + 12 + (argc + 1) * 4 + 4 {
      assert false;
      return;
    }
    ghost var none: seq<int> := [];
    page, sp := Push(page, sp, 0, none, argv, ptrs, low);
    var envp := sp;
    assert [0] + none == [0];
    page, sp := Push(page, sp, 0, [0], argv, ptrs, low);
    assert [0] + [0] == [0, 0];
    page, sp := PushPointers(page, sp, strings, argv, low);
    var args := sp;
    ghost var ws: seq<int> := ptrs + [0, 0];
    page, sp := Push(page, sp, envp, ws, argv, ptrs, low);
    page, sp := Push(page, sp, args, [envp] + ws, argv, ptrs, low);
    page, sp := Push(page, sp, argc, [args] + ([envp] + ws), argv, ptrs, low);
    assert [argc] + ([args] + ([envp] + ws)) == [argc, args, envp] + ws;
    entry := sp;
  }

  lemma StackWords(n: nat, args: int, envp: int, ptrs: seq<u32>, i: nat)
    requires |ptrs| == n && i < n
    ensures
      var ws := [n, args, envp] + (ptrs + [0, 0]);
      |ws| == n + 5 && ws[0] == n && ws[1] == args && ws[2] == envp && ws[3 + i] == ptrs[i] && ws[3 + n] == 0 && ws[4 + n] == 0
  {
  }

  /** From the entry stack pointer alone, the program recovers its arguments. */
  lemma Recovered(page: Page, entry: nat, argv: seq<seq<byte>>, ptrs: seq<u32>, i: nat)
    requires StackOf(page, entry, argv, ptrs) && i < |argv|
    ensures STACK_START <= entry && entry + 12 <= USER_STACK_TOP && WordAt(page, entry) == |argv|
    ensures
      var args, envp := WordAt(page, entry + 4), WordAt(page, entry + 8);
      && STACK_START <= args && args + 4 * (|argv| + 1) <= USER_STACK_TOP && STACK_START <= envp <= USER_STACK_TOP - 4
      && StringAt(page, WordAt(page, args + 4 * i), argv[i])
      && WordAt(page, args + 4 * |argv|) == 0 && WordAt(page, envp) == 0
  {
    WordsFound(page, entry, |argv|, ptrs, i);
  }

  lemma WordsFound(page: Page, entry: nat, n: nat, ptrs: seq<u32>, i: nat)
    requires |ptrs| == n && i < n && WordsAt(page, entry, [n, entry + 12, entry + 12 + 4 * (n + 1)] + (ptrs + [0, 0]))
    ensures STACK_START <= entry && entry + 12 + 4 * (n + 2) <= USER_STACK_TOP
    ensures WordAt(page, entry) == n && WordAt(page, entry + 4) == entry + 12 && WordAt(page, entry + 8) == entry + 12 + 4 * (n + 1)
    ensures WordAt(page, entry + 12 + 4 * i) == ptrs[i] && WordAt(page, entry + 12 + 4 * n) == 0 && WordAt(page, entry + 12 + 4 * (n + 1)) == 0
  {
    var args, envp := entry + 12, entry + 12 + 4 * (n + 1);
    var ws := [n, args, envp] + (ptrs + [0, 0]);
    StackWords(n, args, envp, ptrs, i);
    WordIs(page, entry, ws, 0, entry);
    WordIs(page, entry, ws, 1, entry + 4);
    WordIs(page, entry, ws, 2, entry + 8);
    WordIs(page, entry, ws, 3 + i, args + 4 * i);
    WordIs(page, entry, ws, 3 + n, args + 4 * n);
    WordIs(page, entry, ws, 4 + n, envp);
  }

  lemma WordIs(page: Page, entry: nat, ws: seq<int>, k: nat, x: nat)
    requires WordsAt(page, entry, ws) && k < |ws| && x == entry + 4 * k
    ensures STACK_START <= x && x + 4 <= USER_STACK_TOP && WordAt(page, x) == ws[k]
  {
  }
}
