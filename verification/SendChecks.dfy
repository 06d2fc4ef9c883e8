/**
 What the checks at the head of `send` decide, said in terms of the rows and the characters of the body.
 */
module SendChecks {
  import opened Wrappers
  import opened Database
  import opened ServerSpec
  import opened SendProtocol

  /** The code points that Python counts as white space. */
  predicate WhiteCode(n: int) {
    9 <= n <= 13 || 28 <= n <= 32 || n == 133 || n == 160 || n == 5760 || 8192 <= n <= 8202
    || n == 8232 || n == 8233 || n == 8239 || n == 8287 || n == 12288
  }

  predicate AllWhite(s: string) {
    forall i | 0 <= i < |s| :: WhiteCode(s[i] as int)
  }

  lemma SpaceIsWhite(c: char)
    ensures IsSpace(c) <==> WhiteCode(c as int)
    ensures c in " \t\n\r" ==> IsSpace(c)
    ensures 'a' <= c <= 'z' || 'A' <= c <= 'Z' || '0' <= c <= '9' ==> !IsSpace(c)
  {
  }

  /** Stripping leaves nothing exactly of a body in which every character is white space. */
  lemma {:induction false} BlankExactly(s: string)
    ensures Strip(s) == "" <==> AllWhite(s)
    decreases |s|
  {
    if s == "" {
      assert Strip(s) == "";
    } else {
      var n := |s| - 1;
      SpaceIsWhite(s[0]);
      SpaceIsWhite(s[n]);
      if IsSpace(s[0]) {
        BlankExactly(s[1..]);
        assert AllWhite(s) <==> AllWhite(s[1..]) by {
          assert s == [s[0]] + s[1..];
        }
      } else if IsSpace(s[n]) {
        BlankExactly(s[..n]);
        assert AllWhite(s) <==> AllWhite(s[..n]) by {
          assert s == s[..n] + [s[n]];
        }
      }
    }
  }

  lemma WhiteJoins(a: string, b: string)
    ensures AllWhite(a + b) <==> AllWhite(a) && AllWhite(b)
  {
    if AllWhite(a + b) {
      assert forall i | 0 <= i < |a| :: a[i] == (a + b)[i];
      assert forall i | 0 <= i < |b| :: b[i] == (a + b)[|a| + i];
    }
  }

  predicate IsWhite(c: char) {
    WhiteCode(c as int)
  }

  lemma StripStep(s: string)
    requires s != ""
    ensures IsWhite(s[0]) ==> Strip(s) == Strip(s[1..])
    ensures !IsWhite(s[0]) && IsWhite(s[|s| - 1]) ==> Strip(s) == Strip(s[..|s| - 1])
    ensures !IsWhite(s[0]) && !IsWhite(s[|s| - 1]) ==> Strip(s) == s
  {
    SpaceIsWhite(s[0]);
    SpaceIsWhite(s[|s| - 1]);
  }

  predicate Bare(s: string) {
    s != "" ==> !IsWhite(s[0]) && !IsWhite(s[|s| - 1])
  }

  /** What is left after stripping has no white space at either end. */
  lemma {:induction false} StripLeavesBare(s: string)
    ensures Bare(Strip(s))
    decreases |s|
  {
    if s != "" {
      StripStep(s);
      if IsWhite(s[0]) {
        StripLeavesBare(s[1..]);
      } else if IsWhite(s[|s| - 1]) {
        StripLeavesBare(s[..|s| - 1]);
      }
    }
  }

  lemma OneWhite(c: char)
    ensures AllWhite([c]) <==> IsWhite(c)
  {
    assert [c][0] == c;
  }

  lemma WhiteInFront(s: string, before: string, rest: string)
    requires s != "" && s[1..] == before + rest && IsWhite(s[0]) && AllWhite(before)
    ensures s == ([s[0]] + before) + rest && AllWhite([s[0]] + before)
  {
    OneWhite(s[0]);
    WhiteJoins([s[0]], before);
    assert s == [s[0]] + s[1..];
  }

  lemma WhiteBehind(s: string, rest: string, after: string)
    requires s != "" && s[..|s| - 1] == rest + after && IsWhite(s[|s| - 1]) && AllWhite(after)
    ensures s == rest + (after + [s[|s| - 1]]) && AllWhite(after + [s[|s| - 1]])
  {
    OneWhite(s[|s| - 1]);
    WhiteJoins(after, [s[|s| - 1]]);
    assert s == s[..|s| - 1] + [s[|s| - 1]];
  }

  /** Nothing but white space is taken off. */
  lemma {:induction false} StripTakesWhite(s: string) returns (before: string, after: string)
    ensures s == before + (Strip(s) + after) && AllWhite(before) && AllWhite(after)
    decreases |s|
  {
    before, after := "", "";
    if s != "" {
      StripStep(s);
      if IsWhite(s[0]) {
        before, after := StripTakesWhite(s[1..]);
        WhiteInFront(s, before, Strip(s) + after);
        before := [s[0]] + before;
      } else if IsWhite(s[|s| - 1]) {
        before, after := StripTakesWhite(s[..|s| - 1]);
        assert s[..|s| - 1] == (before + Strip(s)) + after;
        WhiteBehind(s, before + Strip(s), after);
        after := after + [s[|s| - 1]];
      }
    }
  }

  predicate ActiveRow(db: Db, req: SendRequest) {
    (req.conv, req.sender) in db.members && db.members[(req.conv, req.sender)].active
  }

  /** A row with the sender and the client id of the request. */
  predicate Sent(db: Db, req: SendRequest) {
    exists id :: id in db.messages && db.messages[id].sender == req.sender && db.messages[id].clientId == req.clientId
  }

  /** No reply, or one to a message of the same conversation. */
  predicate GoodReply(db: Db, req: SendRequest) {
    req.replyTo == None
    || exists id :: id in db.messages && req.replyTo == Some(id) && db.messages[id].conv == req.conv
  }

  predicate HasContent(req: SendRequest) {
    |req.attachmentIds| > 0 || exists i :: 0 <= i < |req.body| && !WhiteCode(req.body[i] as int)
  }

  lemma SentExactly(db: Db, req: SendRequest)
    ensures HasDuplicate(db, req.sender, req.clientId) <==> Sent(db, req)
  {
    if HasDuplicate(db, req.sender, req.clientId) {
      var id :| id in db.messages && SentBy(db.messages[id], req.sender, req.clientId);
    }
    if Sent(db, req) {
      var id :| id in db.messages && db.messages[id].sender == req.sender && db.messages[id].clientId == req.clientId;
      assert SentBy(db.messages[id], req.sender, req.clientId);
    }
  }

  /** Main result: exactly what the checks decide, for every state of the tables and every request. */
  lemma VerdictExactly(db: Db, req: SendRequest)
    ensures CheckSend(db, req) == Reject(NotFound) <==>
            !ActiveRow(db, req) || (!Sent(db, req) && req.conv !in db.convs.Keys)
    ensures CheckSend(db, req) == Replay <==> ActiveRow(db, req) && Sent(db, req)
    ensures CheckSend(db, req) == Reject(Validation) <==>
            && ActiveRow(db, req) && !Sent(db, req) && req.conv in db.convs.Keys
            && (!HasContent(req) || !GoodReply(db, req))
    ensures CheckSend(db, req) == Proceed <==>
            && ActiveRow(db, req) && !Sent(db, req) && req.conv in db.convs.Keys
            && HasContent(req) && GoodReply(db, req)
  {
    BlankExactly(req.body);
    SentExactly(db, req);
  }
}
