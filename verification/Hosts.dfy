/** The block of container names that the daemon keeps in a container's /etc/hosts. */
module Hosts {
  import opened Text

  const NAME := " docker-lxc-daemon: " + "container DNS "
  const BEGIN_TEXT := " >>>" + NAME + "(managed, " + "do not edit) >>>"
  const END_TEXT := " <<<" + NAME + "(managed) <<<"
  const BEGIN := "#" + BEGIN_TEXT
  const END := "#" + END_TEXT

  function TrimNewlines(s: string): string {
    if s != "" && s[|s| - 1] == '\n' then TrimNewlines(s[..|s| - 1]) else s
  }

  /** stripManagedHostsBlock */
  function Strip(body: string): string {
    var begin := Index(body, BEGIN);
    if begin < 0 then body
    else
      var end := Index(body, END);
      if end < 0 || end < begin then TrimNewlines(body[..begin]) + "\n"
      else
        var after := end + |END|;
        var nl := Index(body[after..], "\n");
        body[..begin] + (if nl >= 0 then body[after + nl + 1..] else body[after..])
  }

  /** base with a newline at its end, unless it is empty. */
  function EndLine(base: string): string {
    if base != "" && base[|base| - 1] != '\n' then base + "\n" else base
  }

  /** composeHostsFile */
  function Compose(existing: string, block: string): string {
    var base := Strip(existing);
    if block == "" then base else EndLine(base) + BEGIN + "\n" + block + END + "\n"
  }

  // ----- Where the markers are -----

  /** A needle whose first character never recurs in it cannot start inside a and run into b, when b
      starts with that character or another one the rest of the needle lacks. */
  lemma NotAcross(a: string, b: string, sub: string)
    requires !Contains(a, sub) && !Contains(b, sub) && sub != ""
    requires b != "" && b[0] !in sub[1..]
    ensures !Contains(a + b, sub)
  {
    var s := a + b;
    forall k: nat
      ensures !OccursAt(s, sub, k)
    {
      if k + |sub| <= |a| {
        assert !OccursAt(a, sub, k);
      } else if k >= |a| {
        assert !OccursAt(b, sub, k - |a|);
      } else {
        assert s[|a|] == b[0];
        assert sub[|a| - k] == sub[1..][|a| - k - 1];
      }
    }
  }

  lemma FirstAfter(a: string, sub: string, rest: string)
    requires !Contains(a, sub) && sub != "" && sub[0] !in sub[1..]
    ensures Index(a + sub + rest, sub) == |a|
  {
    var s := a + sub + rest;
    forall k: nat | k < |a|
      ensures !OccursAt(s, sub, k)
    {
      if k + |sub| <= |a| {
        assert !OccursAt(a, sub, k);
      } else {
        assert s[|a|] == sub[0];
        assert sub[|a| - k] == sub[1..][|a| - k - 1];
      }
    }
    assert OccursAt(s, sub, |a|);
    FirstIsIndex(s, sub, |a|);
  }

  lemma NameText()
    ensures '#' !in NAME && '<' !in NAME && '\n' !in NAME
  {
    assert forall c :: c in " docker-lxc-daemon: " || c in "container DNS " ==> c != '#' && c != '<' && c != '\n';
  }

  lemma BeginText()
    ensures '#' !in BEGIN_TEXT && '<' !in BEGIN_TEXT && '\n' !in BEGIN_TEXT && BEGIN_TEXT != ""
  {
    NameText();
    assert forall c :: c in " >>>" || c in "(managed, " ==> c != '#' && c != '<' && c != '\n';
    assert forall c :: c in "do not edit) >>>" ==> c != '#' && c != '<' && c != '\n';
  }

  lemma EndText()
    ensures '#' !in END_TEXT && '\n' !in END_TEXT
    ensures |END_TEXT| > 1 && END_TEXT[1] == '<'
  {
    NameText();
    assert " <<<"[1] == '<';
    assert forall c :: c in " <<<" || c in "(managed) <<<" ==> c != '#' && c != '\n';
  }

  lemma MarkersUnlike()
    ensures BEGIN[0] !in BEGIN[1..] && END[0] !in END[1..] && '\n' !in BEGIN && '\n' !in END && |BEGIN| > 1 && |END| > 1
    ensures !Contains(BEGIN, END)
  {
    BeginText();
    EndText();
    Unlike(BEGIN_TEXT, END_TEXT);
  }

  lemma Unlike(b: string, e: string)
    requires '#' !in b && '<' !in b && '\n' !in b && '#' !in e && '\n' !in e && |e| > 1 && e[1] == '<'
    ensures ("#" + b)[0] !in ("#" + b)[1..] && ("#" + e)[0] !in ("#" + e)[1..] && '\n' !in "#" + b && '\n' !in "#" + e
    ensures !Contains("#" + b, "#" + e)
  {
    var s, sub := "#" + b, "#" + e;
    assert s[1..] == b && sub[1..] == e && sub[2] == '<' && '<' !in s;
    forall k: nat
      ensures !OccursAt(s, sub, k)
    {
      assert k + 2 < |s| ==> s[k + 2] != sub[2];
    }
  }

  /** Text before the end marker e of a block that starts with b and holds no end marker. */
  lemma NoEndBefore(pre: string, b: string, block: string, e: string)
    requires !Contains(pre, e) && !Contains(block, e) && !Contains(b, e)
    requires b != "" && e != "" && b[0] == e[0] && e[0] !in e[1..] && '\n' !in e
    ensures !Contains(pre + (b + ("\n" + block)), e)
  {
    forall k: nat
      ensures !OccursAt("\n" + block, e, k)
    {
      if k > 0 {
        assert !OccursAt(block, e, k - 1);
      }
    }
    NotAcross(b, "\n" + block, e);
    NotAcross(pre, b + ("\n" + block), e);
  }

  // ----- What rewriting keeps -----

  predicate Unmarked(s: string) {
    !Contains(s, BEGIN) && !Contains(s, END)
  }

  function Managed(block: string): string {
    BEGIN + "\n" + block + END + "\n"
  }

  lemma Regroup(pre: string, b: string, block: string, e: string, post: string)
    ensures pre + (b + "\n" + block + e + "\n") + post == pre + b + ("\n" + block + e + "\n" + post)
    ensures pre + (b + "\n" + block + e + "\n") + post == pre + (b + ("\n" + block)) + e + ("\n" + post)
  {
  }

  lemma StripAt(body: string, pre: string, head: string, post: string)
    requires body == head + END + ("\n" + post) && pre <= head
    requires Index(body, BEGIN) == |pre| && Index(body, END) == |head|
    ensures Strip(body) == pre + post
  {
    var tail := "\n" + post;
    assert body[|head| + |END|..] == tail && body[..|pre|] == pre;
    assert OccursAt(tail, "\n", 0);
    FirstIsIndex(tail, "\n", 0);
    assert body[|head| + |END| + 1..] == post;
  }

  /** Stripping a managed block leaves exactly what was around it. */
  lemma StripsBlock(pre: string, block: string, post: string)
    requires Unmarked(pre) && !Contains(block, END)
    ensures Strip(pre + Managed(block) + post) == pre + post
  {
    MarkersUnlike();
    Regroup(pre, BEGIN, block, END, post);
    FirstAfter(pre, BEGIN, "\n" + block + END + "\n" + post);
    NoEndBefore(pre, BEGIN, block, END);
    FirstAfter(pre + (BEGIN + ("\n" + block)), END, "\n" + post);
    StripAt(pre + Managed(block) + post, pre, pre + (BEGIN + ("\n" + block)), post);
  }

  lemma ContainsNewline(s: string, sub: string)
    requires !Contains(s, sub) && |sub| > 1 && '\n' !in sub
    ensures !Contains(s + "\n", sub)
  {
    assert '\n' !in sub[1..];
    assert !Contains("\n", sub);
    NotAcross(s, "\n", sub);
  }

  lemma EndLineUnmarked(s: string)
    requires Unmarked(s)
    ensures Unmarked(EndLine(s)) && EndLine(EndLine(s)) == EndLine(s)
  {
    MarkersUnlike();
    ContainsNewline(s, BEGIN);
    ContainsNewline(s, END);
  }

  /** Stripping undoes composing, up to a final newline. */
  lemma StripsComposed(base: string, block: string)
    requires Unmarked(base) && !Contains(block, END)
    ensures Strip(Compose(base, block)) == if block == "" then base else EndLine(base)
  {
    if block != "" {
      EndLineUnmarked(base);
      StripsBlock(EndLine(base), block, "");
      var s := EndLine(base) + Managed(block);
      assert s + "" == s && EndLine(base) + "" == EndLine(base);
      Reassociate(EndLine(base), BEGIN, block, END);
    }
  }

  lemma Reassociate(base: string, b: string, block: string, e: string)
    ensures base + b + "\n" + block + e + "\n" == base + (b + "\n" + block + e + "\n")
  {
  }

  /** A block is replaced wherever it sits: the rest of the file is composed anew with the next one. */
  lemma ReplacesBlock(pre: string, was: string, post: string, block: string)
    requires Unmarked(pre) && Unmarked(pre + post) && !Contains(was, END)
    ensures Compose(pre + Managed(was) + post, block) == Compose(pre + post, block)
  {
    StripsBlock(pre, was, post);
  }

  /** A file rewritten with each block in turn. */
  function Rewrite(file: string, blocks: seq<string>): string {
    if blocks == [] then file else Compose(Rewrite(file, blocks[..|blocks| - 1]), blocks[|blocks| - 1])
  }

  predicate Written(blocks: seq<string>) {
    exists i :: 0 <= i < |blocks| && blocks[i] != ""
  }

  lemma ComposeAgain(file: string, base: string, block: string)
    requires Unmarked(base) && !Contains(block, END)
    requires Strip(file) == base || Strip(file) == EndLine(base)
    ensures block != "" ==> Compose(file, block) == Compose(base, block) && Strip(Compose(file, block)) == EndLine(base)
    ensures block == "" ==> Compose(file, block) == Strip(file) == Strip(Strip(file))
  {
    EndLineUnmarked(base);
    StripsComposed(base, block);
  }

  predicate Clean(blocks: seq<string>) {
    forall block :: block in blocks ==> !Contains(block, END)
  }

  ghost predicate Kept(base: string, blocks: seq<string>) {
    Strip(Rewrite(base, blocks)) == if Written(blocks) then EndLine(base) else base
  }

  lemma KeptStep(base: string, front: seq<string>, last: string)
    requires Unmarked(base) && !Contains(last, END) && Kept(base, front)
    ensures Kept(base, front + [last])
    ensures last != "" ==> Rewrite(base, front + [last]) == Compose(base, last)
    ensures last == "" ==> Rewrite(base, front + [last]) == if Written(front) then EndLine(base) else base
  {
    assert (front + [last])[..|front|] == front;
    ComposeAgain(Rewrite(base, front), base, last);
    WrittenStep(front, last);
  }

  lemma {:induction false} AllKept(base: string, blocks: seq<string>)
    requires Unmarked(base) && Clean(blocks)
    ensures Kept(base, blocks)
  {
    if blocks != [] {
      var front, last := blocks[..|blocks| - 1], blocks[|blocks| - 1];
      assert blocks == front + [last];
      AllKept(base, front);
      KeptStep(base, front, last);
    }
  }

  /** Any number of rewrites is one rewrite with the latest block; without one, only the final newline
      that an earlier block required stays. */
  lemma RewritesKeepRest(base: string, blocks: seq<string>, last: string)
    requires Unmarked(base) && Clean(blocks) && !Contains(last, END)
    ensures Strip(Rewrite(base, blocks + [last])) == if Written(blocks + [last]) then EndLine(base) else base
    ensures last != "" ==> Rewrite(base, blocks + [last]) == Compose(base, last)
    ensures last == "" ==> Rewrite(base, blocks + [last]) == if Written(blocks) then EndLine(base) else base
  {
    AllKept(base, blocks);
    KeptStep(base, blocks, last);
  }

  lemma WrittenStep(front: seq<string>, last: string)
    ensures Written(front + [last]) <==> Written(front) || last != ""
  {
    var blocks := front + [last];
    assert blocks[|front|] == last;
    assert forall i :: 0 <= i < |front| ==> front[i] == blocks[i];
  }
}
