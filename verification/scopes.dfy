/** The comma-separated `scope` value the provider expects in its
    authorization request (the provider's own encoding, where RFC 6749
    section 3.3 uses spaces). */
module Scopes {

  /** The scopes in list order with a single `,` between neighbours: no comma
      before the first or after the last, and `""` for no scopes. */
  function Join(scopes: seq<string>): (s: string)
    ensures |s| == TotalLength(scopes) + (if |scopes| == 0 then 0 else |scopes| - 1)
    ensures |scopes| >= 1 ==> scopes[0] <= s
  {
    if |scopes| == 0 then ""
    else if |scopes| == 1 then scopes[0]
    else scopes[0] + "," + Join(scopes[1..])
  }

  /** The number of characters in all the scopes together. */
  function TotalLength(scopes: seq<string>): (n: nat)
  {
    if |scopes| == 0 then 0 else |scopes[0]| + TotalLength(scopes[1..])
  }

  /** Cuts `s` at every `,`; always yields at least one piece. */
  function Split(s: string): (pieces: seq<string>)
    ensures |pieces| >= 1
  {
    if |s| == 0 then [""]
    else
      var rest := Split(s[1..]);
      if s[0] == ',' then [""] + rest
      else [[s[0]] + rest[0]] + rest[1..]
  }

  ghost predicate CommaFree(scopes: seq<string>) {
    forall i :: 0 <= i < |scopes| ==> ',' !in scopes[i]
  }

  /** Appending one scope adds it after a comma, unless it is the first. */
  lemma {:induction false} JoinSnoc(scopes: seq<string>, x: string)
    ensures Join(scopes + [x]) == if |scopes| == 0 then x else Join(scopes) + "," + x
    decreases |scopes|
  {
    if |scopes| > 1 {
      assert (scopes + [x])[1..] == scopes[1..] + [x];
      JoinSnoc(scopes[1..], x);
    } else if |scopes| == 1 {
      assert (scopes + [x])[1..] == [x];
    }
  }

  /** The scope loop of the authorization-request builder: append the next
      scope, then a comma whenever another scope follows. */
  method JoinIteratively(scopes: seq<string>) returns (s: string)
    ensures s == Join(scopes)
  {
    s := "";
    var i := 0;
    while i < |scopes|
      invariant 0 <= i <= |scopes|
      invariant s == Join(scopes[..i]) + (if 0 < i < |scopes| then "," else "")
    {
      JoinSnoc(scopes[..i], scopes[i]);
      assert scopes[..i + 1] == scopes[..i] + [scopes[i]];
      s := s + scopes[i];
      i := i + 1;
      if i < |scopes| {
        s := s + ",";
      }
    }
    assert scopes[..i] == scopes;
  }

  /** A comma-free prefix joins the first piece of whatever follows it. */
  lemma {:induction false} SplitPrefix(a: string, t: string)
    requires ',' !in a
    ensures Split(a + t) == [a + Split(t)[0]] + Split(t)[1..]
    decreases |a|
  {
    if |a| > 0 {
      assert (a + t)[1..] == a[1..] + t;
      assert ',' !in a[1..] by {
        forall c | c in a[1..] ensures c != ',' {
          assert c in a;
        }
      }
      SplitPrefix(a[1..], t);
      var rest := Split((a + t)[1..]);
      assert (a + t)[0] == a[0] != ',';
      assert rest[0] == a[1..] + Split(t)[0];
      assert [a[0]] + rest[0] == a + Split(t)[0];
    } else {
      assert a + t == t && a + Split(t)[0] == Split(t)[0];
      assert Split(t) == [Split(t)[0]] + Split(t)[1..];
    }
  }

  /** Splitting the joined scopes at commas gives back the scopes, provided
      there is at least one and none contains a comma itself. */
  lemma {:induction false} SplitJoin(scopes: seq<string>)
    requires |scopes| >= 1 && CommaFree(scopes)
    ensures Split(Join(scopes)) == scopes
    decreases |scopes|
  {
    if |scopes| == 1 {
      SplitPrefix(scopes[0], "");
      assert scopes[0] + "" == scopes[0];
    } else {
      var t := Join(scopes[1..]);
      SplitJoin(scopes[1..]);
      assert scopes[0] + "," + t == scopes[0] + ("," + t);
      assert ',' !in scopes[0];
      SplitPrefix(scopes[0], "," + t);
      assert ("," + t)[0] == ',' && ("," + t)[1..] == t;
      assert Split("," + t) == [""] + Split(t);
      assert scopes[0] + "" == scopes[0];
      assert scopes == [scopes[0]] + scopes[1..];
    }
  }
}
