/**
 * Session-context replay: the dictionary filled by walking the stored
 * messages and writing each message's content under its role.
 */
module Context {
  import opened ChatTypes

  /** The context map after replaying `h`, built the way the loop builds it: each write overrides the previous one for that role. */
  function LastByRole(h: seq<Message>): map<Role, string>
  {
    if h == [] then map[]
    else LastByRole(h[..|h| - 1])[h[|h| - 1].role := h[|h| - 1].content]
  }

  /** Message `i` is the last message of `h` with role `r`. */
  predicate IsLastWith(h: seq<Message>, r: Role, i: int)
  {
    0 <= i < |h| && h[i].role == r && forall j :: i < j < |h| ==> h[j].role != r
  }

  /**
   * After replay the map holds exactly the roles that occur in the history,
   * and for each the content of the last message with that role.
   */
  lemma {:induction false} LastByRoleCharacterised(h: seq<Message>, r: Role)
    ensures r in LastByRole(h) <==> exists i :: 0 <= i < |h| && h[i].role == r
    ensures forall i :: IsLastWith(h, r, i) ==> r in LastByRole(h) && LastByRole(h)[r] == h[i].content
  {
    if h != [] {
      var p, m := h[..|h| - 1], h[|h| - 1];
      assert h == p + [m];
      LastByRoleCharacterised(p, r);
      if m.role != r {
        forall i | IsLastWith(h, r, i)
          ensures IsLastWith(p, r, i)
        {
          assert i != |h| - 1;
          assert forall j :: i < j < |p| ==> p[j] == h[j];
        }
        if exists i :: 0 <= i < |h| && h[i].role == r {
          var i :| 0 <= i < |h| && h[i].role == r;
          assert i < |p| && p[i].role == r;
        }
      } else {
        assert forall i :: IsLastWith(h, r, i) ==> i == |h| - 1;
      }
    }
  }

  /** The replay loop: session_context starts empty and takes every stored message in turn. */
  method Replay(h: seq<Message>) returns (context: map<Role, string>)
    ensures context == LastByRole(h)
  {
    context := map[];
    for i := 0 to |h|
      invariant context == LastByRole(h[..i])
    {
      assert h[..i + 1][..i] == h[..i];
      context := context[h[i].role := h[i].content];
    }
    assert h[..|h|] == h;
  }
}
