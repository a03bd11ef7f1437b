/** Links of guest apps opened in the host's browser, at a limited rate. Times are milliseconds. */
module Links {
  import opened Options

  const OPEN_INTERVAL := 1000
  const SAME_LINK_WINDOW := 30000

  /** The time and link of the previous open. */
  datatype Last = Last(time: int, url: Option<string>)

  const NEVER := Last(-SAME_LINK_WINDOW, None)

  datatype Request = Request(url: string, now: int, program: bool)

  datatype Answer = Opened | Repeated | BadLink | TooQuick | NoProgram

  /** Neither white space, which `\s` matches in a string, nor a control character, nor DEL. */
  predicate LinkChar(c: char) {
    && c > ' ' && c != '\U{7f}' && c != '\U{85}' && c != '\U{a0}' && c != '\U{1680}'
    && !('\U{2000}' <= c <= '\U{200a}') && c != '\U{2028}' && c != '\U{2029}' && c != '\U{202f}'
    && c != '\U{205f}' && c != '\U{3000}'
  }

  predicate LinkTail(tail: string) {
    1 <= |tail| <= 2000 && forall i | 0 <= i < |tail| :: LinkChar(tail[i])
  }

  /** `https?://` and 1 to 2000 characters, none of them a space or a control character. */
  predicate ValidUrl(url: string) {
    ("http://" <= url && LinkTail(url[7..])) || ("https://" <= url && LinkTail(url[8..]))
  }

  /** The code points of the characters that a link cannot have. */
  predicate Barred(n: int) {
    n <= 32 || n in {127, 133, 160, 5760, 8232, 8233, 8239, 8287, 12288} || 8192 <= n <= 8202
  }

  /** Exactly the http and https links with 1 to 2000 characters after the slashes pass, none of them white space,
  a control character or DEL; a link of any other scheme does not. */
  lemma {:induction false} LinksThatOpen(url: string)
    ensures ValidUrl(url) <==>
            exists tail ::
              && (url == "http://" + tail || url == "https://" + tail) && 1 <= |tail| <= 2000
              && forall c | c in tail :: !Barred(c as int)
  {
    if ValidUrl(url) {
      var tail := if "http://" <= url && LinkTail(url[7..]) then url[7..] else url[8..];
      assert url == (if "http://" <= url && LinkTail(url[7..]) then "http://" else "https://") + tail;
      TailCharacters(tail);
    }
    if tail :| (url == "http://" + tail || url == "https://" + tail) && 1 <= |tail| <= 2000
               && forall c | c in tail :: !Barred(c as int) {
      TailCharacters(tail);
      assert url == "http://" + tail ==> url[7..] == tail;
      assert url == "https://" + tail ==> url[8..] == tail;
    }
  }

  lemma TailCharacters(tail: string)
    ensures LinkTail(tail) <==> 1 <= |tail| <= 2000 && forall c | c in tail :: !Barred(c as int)
  {
    assert forall i | 0 <= i < |tail| :: tail[i] in tail;
    forall i | 0 <= i < |tail| ensures LinkChar(tail[i]) <==> !Barred(tail[i] as int) {
    }
  }

  function Decide(last: Last, r: Request): Answer {
    if !ValidUrl(r.url) then BadLink
    else if last.url == Some(r.url) && r.now - last.time < SAME_LINK_WINDOW then Repeated
    else if r.now - last.time < OPEN_INTERVAL then TooQuick
    else if !r.program then NoProgram
    else Opened
  }

  function Next(last: Last, r: Request): Last {
    if Decide(last, r).Opened? then Last(r.now, Some(r.url)) else last
  }

  /** The opens, in order, of a supervisor that serves `requests` one after the other. */
  function Opens(last: Last, requests: seq<Request>): seq<Request>
    decreases requests
  {
    if requests == [] then []
    else (if Decide(last, requests[0]).Opened? then [requests[0]] else [])
         + Opens(Next(last, requests[0]), requests[1..])
  }

  predicate Monotone(requests: seq<Request>) {
    forall i, j | 0 <= i < j < |requests| :: requests[i].now <= requests[j].now
  }

  /** `b` comes long enough after the open at `last`. */
  predicate Spaced(last: Last, b: Request) {
    b.now - last.time >= 1000 && (last.url == Some(b.url) ==> b.now - last.time >= 30000)
  }

  lemma {:induction false} OpensSpaced(last: Last, requests: seq<Request>, i: nat)
    requires i < |Opens(last, requests)|
    ensures Spaced(if i == 0 then last else var a := Opens(last, requests)[i - 1]; Last(a.now, Some(a.url)),
                   Opens(last, requests)[i])
    decreases requests
  {
    var first, rest := requests[0], requests[1..];
    if Decide(last, first).Opened? {
      if i > 0 {
        OpensSpaced(Next(last, first), rest, i - 1);
      }
    } else {
      OpensSpaced(last, rest, i);
    }
  }

  /** Any two opens that follow each other are a second apart, and half a minute apart when they are of
  the same link, whatever was refused or answered as a repeat in between. */
  lemma ConsecutiveOpens(requests: seq<Request>, i: nat)
    requires i + 1 < |Opens(NEVER, requests)|
    ensures var a, b := Opens(NEVER, requests)[i], Opens(NEVER, requests)[i + 1];
            b.now - a.now >= 1000 && (a.url == b.url ==> b.now - a.now >= 30000)
  {
    OpensSpaced(NEVER, requests, i + 1);
  }

  lemma {:induction false} OpensApart(requests: seq<Request>, i: nat, j: nat)
    requires i <= j < |Opens(NEVER, requests)|
    ensures Opens(NEVER, requests)[j].now - Opens(NEVER, requests)[i].now >= 1000 * (j - i)
  {
    if i < j {
      OpensApart(requests, i, j - 1);
      ConsecutiveOpens(requests, j - 1);
    }
  }

  /** No window of `length` milliseconds contains more than length / 1000 + 1 opens. */
  lemma WindowBound(requests: seq<Request>, i: nat, j: nat, start: int, length: nat)
    requires i <= j < |Opens(NEVER, requests)|
    requires start <= Opens(NEVER, requests)[i].now && Opens(NEVER, requests)[j].now <= start + length
    ensures j - i + 1 <= length / 1000 + 1
  {
    OpensApart(requests, i, j);
  }

  /** Only an open moves the windows: a run without one leaves them as they were. */
  lemma {:induction false} RefusalsKeepWindows(last: Last, requests: seq<Request>, r: Request)
    requires Opens(last, requests) == []
    ensures Opens(last, requests + [r]) == if Decide(last, r).Opened? then [r] else []
  {
    if requests == [] {
      assert [] + [r] == [r];
      assert Opens(last, [r]) == (if Decide(last, r).Opened? then [r] else []) + Opens(Next(last, r), []);
    } else {
      assert (requests + [r])[1..] == requests[1..] + [r];
      RefusalsKeepWindows(last, requests[1..], r);
    }
  }

  /** The comment in the source says that a link is not opened twice within the window. That holds only
  while no other link was opened in between: A, B, A opens A again after two seconds. */
  lemma SameLinkTwice(a: string, b: string)
    requires ValidUrl(a) && ValidUrl(b) && a != b
    ensures var rs := [Request(a, 0, true), Request(b, 1000, true), Request(a, 2000, true)];
            Monotone(rs) && Opens(NEVER, rs) == rs
  {
    var r0, r1, r2 := Request(a, 0, true), Request(b, 1000, true), Request(a, 2000, true);
    var l1, l2, l3 := Last(0, Some(a)), Last(1000, Some(b)), Last(2000, Some(a));
    assert Next(NEVER, r0) == l1 && Next(l1, r1) == l2 && Next(l2, r2) == l3;
    assert Opens(l3, []) == [];
    assert [r2][1..] == [] && Opens(l2, [r2]) == [r2] + Opens(l3, []);
    assert [r1, r2][1..] == [r2] && Opens(l1, [r1, r2]) == [r1] + Opens(l2, [r2]);
    assert [r0, r1, r2][1..] == [r1, r2] && Opens(NEVER, [r0, r1, r2]) == [r0] + Opens(l1, [r1, r2]);
  }

  function Final(last: Last, requests: seq<Request>): Last
    decreases requests
  {
    if requests == [] then last else Final(Next(last, requests[0]), requests[1..])
  }

  lemma {:induction false} OpensSnoc(last: Last, requests: seq<Request>, r: Request)
    ensures Opens(last, requests + [r]) ==
            Opens(last, requests) + if Decide(Final(last, requests), r).Opened? then [r] else []
    decreases requests
  {
    if requests == [] {
      assert [] + [r] == [r];
      assert Opens(last, [r]) == (if Decide(last, r).Opened? then [r] else []) + Opens(Next(last, r), []);
    } else {
      assert (requests + [r])[1..] == requests[1..] + [r];
      OpensSnoc(Next(last, requests[0]), requests[1..], r);
    }
  }

  lemma {:induction false} LastOpen(last: Last, requests: seq<Request>)
    ensures var opens := Opens(last, requests);
            Final(last, requests) == if opens == [] then last
                                   else Last(opens[|opens| - 1].now, Some(opens[|opens| - 1].url))
    decreases requests
  {
    if requests != [] {
      LastOpen(Next(last, requests[0]), requests[1..]);
    }
  }

  /** A request for a link that was opened less than 30 seconds ago opens it again exactly when another
  link was the last one opened, at least a second ago, and a browser launcher is installed. */
  lemma ReopensIff(requests: seq<Request>, r: Request, k: nat)
    requires k < |Opens(NEVER, requests)| && ValidUrl(r.url)
    requires Opens(NEVER, requests)[k].url == r.url && r.now - Opens(NEVER, requests)[k].now < 30000
    ensures var os := Opens(NEVER, requests);
            var latest := os[|os| - 1];
            Opens(NEVER, requests + [r]) == os + [r] <==>
            latest.url != r.url && r.now - latest.now >= 1000 && r.program
  {
    var os := Opens(NEVER, requests);
    OpensSnoc(NEVER, requests, r);
    LastOpen(NEVER, requests);
    OpensApart(requests, k, |os| - 1);
  }

  class LinkOpener {
    var time: int
    var url: Option<string>
    ghost var served: seq<Request>
    ghost var opens: seq<Request>

    ghost predicate Valid()
      reads this
    {
      && opens == Opens(NEVER, served)
      && (if opens == [] then Last(time, url) == NEVER
          else Last(time, url) == Last(opens[|opens| - 1].now, Some(opens[|opens| - 1].url)))
    }

    constructor ()
      ensures Valid() && served == []
    {
      time, url, served, opens := NEVER.time, NEVER.url, [], [];
    }

    /** `open_url`. An exception of Popen itself comes after the record of the open. */
    method OpenUrl(r: Request) returns (answer: Answer)
      requires Valid()
      modifies this
      ensures Valid() && served == old(served) + [r]
      ensures opens == old(opens) + if answer.Opened? then [r] else []
      ensures answer.BadLink? <==> !ValidUrl(r.url)
      ensures answer.Repeated? <==> ValidUrl(r.url) && old(url) == Some(r.url) && r.now - old(time) < 30000
      ensures answer.Opened? <==> ValidUrl(r.url) && Spaced(Last(old(time), old(url)), r) && r.program
      ensures !answer.Opened? ==> time == old(time) && url == old(url)
      ensures answer.NoProgram? <==> ValidUrl(r.url) && Spaced(Last(old(time), old(url)), r) && !r.program
    {
      OpensSnoc(NEVER, served, r);
      LastOpen(NEVER, served);
      served := served + [r];
      if !ValidUrl(r.url) { return BadLink; }
      if url == Some(r.url) && r.now - time < SAME_LINK_WINDOW { return Repeated; }
      if r.now - time < OPEN_INTERVAL { return TooQuick; }
      if !r.program { return NoProgram; }
      time, url := r.now, Some(r.url);
      opens := opens + [r];
      answer := Opened;
    }
  }
}
