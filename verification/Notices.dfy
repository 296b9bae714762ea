/** What a chunk of the tailscale tool's output announces, and what the Write
    method of network/tailscale_client.go makes of it. */
module Notices {

  datatype ConnectState = Connecting | Connected | Authenticating | Authorizing | WaitingForExitNode | NotConnected

  datatype Notice = Authorize | Authenticate | Success | Other

  // ---------------------------------------------------------------------
  // Chunks of bytes.

  predicate IsNewLine(c: char) { c == '\r' || c == '\n' }

  predicate NewLines(s: string) { forall c | c in s :: IsNewLine(c) }

  /** strings.TrimRight(s, "\r\n") */
  function TrimRight(s: string): (r: string)
    ensures r <= s && (r != "" ==> !IsNewLine(r[|r| - 1]))
  {
    if s != "" && IsNewLine(s[|s| - 1]) then TrimRight(s[..|s| - 1]) else s
  }

  /** strings.TrimLeft(s, "\r\n") */
  function TrimLeft(s: string): (r: string)
    ensures |r| <= |s| && (r != "" ==> !IsNewLine(r[0]))
  {
    if s != "" && IsNewLine(s[0]) then TrimLeft(s[1..]) else s
  }

  function Trimmed(p: string): string { TrimLeft(TrimRight(p)) }

  const AUTHORIZE := "To authorize your machine, visit"
  const AUTHENTICATE := "To authenticate, visit"
  const SUCCESS := "Success"

  /** The prefix tests of Write, in their order. */
  function Recognise(msg: string): Notice {
    if AUTHORIZE <= msg then Authorize
    else if AUTHENTICATE <= msg then Authenticate
    else if SUCCESS <= msg then Success
    else Other
  }

  function NoticeOf(p: string): Notice { Recognise(Trimmed(p)) }

  /** The recognised prefixes exclude each other, so the order of the branches
      does not matter. */
  lemma RecogniseAnyOrder(msg: string)
    ensures Recognise(msg) == Authorize <==> "To authorize your machine, visit" <= msg
    ensures Recognise(msg) == Authenticate <==> "To authenticate, visit" <= msg
    ensures Recognise(msg) == Success <==> "Success" <= msg
  {
    assert AUTHORIZE[7] == 'o' && AUTHENTICATE[7] == 'e';
    assert AUTHORIZE[0] == AUTHENTICATE[0] == 'T' && SUCCESS[0] == 'S';
  }

  lemma {:induction false} TrimRightPad(s: string, pad: string)
    requires NewLines(pad)
    ensures TrimRight(s + pad) == TrimRight(s)
  {
    if pad == "" {
      assert s + pad == s;
    } else {
      var n := |pad| - 1;
      assert (s + pad)[..|s + pad| - 1] == s + pad[..n] && pad[n] in pad;
      TrimRightPad(s, pad[..n]);
    }
  }

  lemma {:induction false} TrimLeftPad(pad: string, s: string)
    requires NewLines(pad)
    ensures TrimLeft(pad + s) == TrimLeft(s)
  {
    if pad == "" {
      assert pad + s == s;
    } else {
      assert (pad + s)[1..] == pad[1..] + s && pad[0] in pad;
      TrimLeftPad(pad[1..], s);
    }
  }

  lemma {:induction false} TrimRightFront(c: char, p: string)
    requires IsNewLine(c)
    ensures TrimRight([c] + p) == if TrimRight(p) == "" then "" else [c] + TrimRight(p)
  {
    if p == "" {
      assert ([c] + p)[..0] == "";
    } else if IsNewLine(p[|p| - 1]) {
      assert ([c] + p)[..|p|] == [c] + p[..|p| - 1];
      TrimRightFront(c, p[..|p| - 1]);
    }
  }

  /** A line end in front of a chunk makes no difference once it is trimmed. */
  lemma TrimmedFront(c: char, p: string)
    requires IsNewLine(c)
    ensures Trimmed([c] + p) == Trimmed(p)
  {
    TrimRightFront(c, p);
    if TrimRight(p) != "" {
      assert ([c] + TrimRight(p))[1..] == TrimRight(p);
    }
  }

  lemma {:induction false} TrimmedPad(a: string, p: string, b: string)
    requires NewLines(a) && NewLines(b)
    ensures Trimmed(a + p + b) == Trimmed(p)
  {
    TrimRightPad(a + p, b);
    if a == "" {
      assert a + p == p;
    } else {
      assert a[0] in a && a + p == [a[0]] + (a[1..] + p);
      TrimmedFront(a[0], a[1..] + p);
      TrimmedPad(a[1..], p, "");
      assert a[1..] + p + "" == a[1..] + p;
    }
  }

  lemma {:induction false} TrimRightExact(s: string)
    ensures TrimRight(s) <= s && NewLines(s[|TrimRight(s)|..])
  {
    if s != "" && IsNewLine(s[|s| - 1]) {
      var init := s[..|s| - 1];
      TrimRightExact(init);
      assert s[|TrimRight(init)|..] == init[|TrimRight(init)|..] + [s[|s| - 1]];
    }
  }

  lemma {:induction false} TrimLeftExact(s: string)
    ensures var cut := |s| - |TrimLeft(s)|; cut >= 0 && TrimLeft(s) == s[cut..] && NewLines(s[..cut])
  {
    if s != "" && IsNewLine(s[0]) {
      TrimLeftExact(s[1..]);
      var cut := |s| - |TrimLeft(s)|;
      assert s[..cut] == [s[0]] + s[1..][..cut - 1];
    }
  }

  lemma {:induction false} TrimLeftEnd(s: string)
    ensures TrimLeft(s) != "" ==> TrimLeft(s)[|TrimLeft(s)| - 1] == s[|s| - 1]
  {
    if s != "" && IsNewLine(s[0]) { TrimLeftEnd(s[1..]); }
  }

  /** Trimming takes line ends off both sides, and all of them. */
  lemma TrimmedExact(p: string) returns (front: string, back: string)
    ensures p == front + Trimmed(p) + back
    ensures forall c | c in front || c in back :: c == '\r' || c == '\n'
    ensures Trimmed(p) != "" ==>
              var first, last := Trimmed(p)[0], Trimmed(p)[|Trimmed(p)| - 1];
              first != '\r' && first != '\n' && last != '\r' && last != '\n'
  {
    var right := TrimRight(p);
    TrimRightExact(p);
    TrimLeftExact(right);
    TrimLeftEnd(right);
    var cut := |right| - |TrimLeft(right)|;
    front, back := right[..cut], p[|right|..];
    assert right == front + Trimmed(p);
  }

  // ---------------------------------------------------------------------
  // Transitions of the connection state.

  function AfterNotice(state: ConnectState, waiting: bool, n: Notice): ConnectState {
    if state == Connected || state == NotConnected then state
    else
      match n
      case Authorize => Authorizing
      case Authenticate => Authenticating
      case Success => if waiting then WaitingForExitNode else Connected
      case Other => state
  }

  /** Line ends added at either end of a chunk never change what it announces,
      and so never change a transition. */
  lemma PaddingIrrelevant(state: ConnectState, waiting: bool, a: string, p: string, b: string)
    requires NewLines(a) && NewLines(b)
    ensures AfterNotice(state, waiting, NoticeOf(a + p + b)) == AfterNotice(state, waiting, NoticeOf(p))
  {
    TrimmedPad(a, p, b);
  }

  /** From an open state each announcement leads to its own state. */
  lemma AfterNoticeExact(state: ConnectState, waiting: bool, n: Notice)
    requires state != Connected && state != NotConnected
    ensures n == Authorize ==> AfterNotice(state, waiting, n) == Authorizing
    ensures n == Authenticate ==> AfterNotice(state, waiting, n) == Authenticating
    ensures n == Success && waiting ==> AfterNotice(state, waiting, n) == WaitingForExitNode
    ensures n == Success && !waiting ==> AfterNotice(state, waiting, n) == Connected
    ensures n == Other ==> AfterNotice(state, waiting, n) == state
  {
  }

  function AfterNotices(state: ConnectState, waiting: bool, ns: seq<Notice>): ConnectState {
    if ns == [] then state
    else AfterNotice(AfterNotices(state, waiting, ns[..|ns| - 1]), waiting, ns[|ns| - 1])
  }

  lemma {:induction false} ConnectedAbsorbs(waiting: bool, ns: seq<Notice>)
    ensures AfterNotices(Connected, waiting, ns) == Connected
  {
    if ns != [] { ConnectedAbsorbs(waiting, ns[..|ns| - 1]); }
  }

  /** While the client waits for its exit node no output makes it Connected;
      otherwise it gets there exactly when some chunk announces success. */
  lemma {:induction false} ConnectedByNoticesIff(state: ConnectState, waiting: bool, ns: seq<Notice>)
    requires state != Connected && state != NotConnected
    ensures AfterNotices(state, waiting, ns) != NotConnected
    ensures AfterNotices(state, waiting, ns) == Connected <==> !waiting && Success in ns
  {
    if ns != [] {
      ConnectedByNoticesIff(state, waiting, ns[..|ns| - 1]);
    }
  }
}
