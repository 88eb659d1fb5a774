/**
 * The chat transcript (app.py): each history message is rendered as a user
 * or a bot message, and "Export chat" writes one labelled block per message,
 * joined by a blank line.
 */
module ChatExport {
  import opened Optional

  /** A history message: LangChain's `type` ("human", "ai", ...) and its text. */
  datatype Message = Message(kind: string, content: string)

  /** Who a message is shown as. */
  datatype Role = User | Bot

  /** `m.type in ("human", "user")`, the one test both the transcript and the export use. */
  predicate FromUser(m: Message) {
    m.kind == "human" || m.kind == "user"
  }

  /** The role the transcript renders a message with. */
  function RoleOf(m: Message): Role {
    if FromUser(m) then User else Bot
  }

  const YouLabel: string := "**You:** "
  const AssistantLabel: string := "**Assistant:** "
  const BlockSeparator: string := "\n\n"

  /** One exported block: the speaker's label, then the message text. */
  function Block(m: Message): string {
    (if FromUser(m) then YouLabel else AssistantLabel) + m.content
  }

  /** Reads a block back into its role and text; `None` when it starts with neither label. */
  function ParseBlock(b: string): Option<(Role, string)> {
    if |YouLabel| <= |b| && b[..|YouLabel|] == YouLabel then Some((User, b[|YouLabel|..]))
    else if |AssistantLabel| <= |b| && b[..|AssistantLabel|] == AssistantLabel then Some((Bot, b[|AssistantLabel|..]))
    else None
  }

  /** The list comprehension: one block per message, in history order. */
  function Blocks(history: seq<Message>): (r: seq<string>)
    ensures |r| == |history|
  {
    if history == [] then [] else Blocks(history[..|history| - 1]) + [Block(history[|history| - 1])]
  }

  /** Block `k` is the block of message `k`. */
  lemma {:induction false} BlocksAt(history: seq<Message>, k: nat)
    requires k < |history|
    ensures Blocks(history)[k] == Block(history[k])
  {
    if k < |history| - 1 {
      var init := history[..|history| - 1];
      BlocksAt(init, k);
      assert init[k] == history[k];
    }
  }

  /** Python's `sep.join(parts)`. */
  function Join(parts: seq<string>, sep: string): string {
    if |parts| == 0 then ""
    else if |parts| == 1 then parts[0]
    else Join(parts[..|parts| - 1], sep) + sep + parts[|parts| - 1]
  }

  /** The exported Markdown text. */
  function Export(history: seq<Message>): string {
    Join(Blocks(history), BlockSeparator)
  }

  /** The download button exists only while the history is non-empty. */
  function ExportChat(history: seq<Message>): (r: Option<string>)
    ensures r.None? <==> history == []
  {
    if history == [] then None else Some(Export(history))
  }

  /** Where part `i` starts in `Join(parts, sep)`: the parts before it, each followed by `sep`. */
  function PartStart(parts: seq<string>, sepLength: nat, i: nat): nat
    requires i <= |parts|
  {
    if i == 0 then 0 else PartStart(parts, sepLength, i - 1) + |parts[i - 1]| + sepLength
  }

  lemma {:induction false} PartStartPrefix(parts: seq<string>, sepLength: nat, i: nat, n: nat)
    requires i <= n <= |parts|
    ensures PartStart(parts[..n], sepLength, i) == PartStart(parts, sepLength, i)
  {
    if i > 0 {
      PartStartPrefix(parts, sepLength, i - 1, n);
    }
  }

  /** `sep.join(parts)` is as long as the parts and the separators between them. */
  lemma {:induction false} JoinLength(parts: seq<string>, sep: string)
    requires parts != []
    ensures |Join(parts, sep)| == PartStart(parts, |sep|, |parts| - 1) + |parts[|parts| - 1]|
  {
    var n := |parts|;
    if n > 1 {
      var init := parts[..n - 1];
      JoinLength(init, sep);
      PartStartPrefix(parts, |sep|, n - 2, n - 1);
    }
  }

  /** The layout of `sep.join(parts)`: part `i` stands at `PartStart(i)`. */
  lemma {:induction false} JoinPartAt(parts: seq<string>, sep: string, i: nat)
    requires i < |parts|
    ensures PartStart(parts, |sep|, i) + |parts[i]| <= |Join(parts, sep)|
    ensures Join(parts, sep)[PartStart(parts, |sep|, i)..PartStart(parts, |sep|, i) + |parts[i]|] == parts[i]
  {
    var n := |parts|;
    if n > 1 {
      var init := parts[..n - 1];
      JoinLast(parts, sep);
      if i < n - 1 {
        JoinPartAt(init, sep, i);
        PartStartPrefix(parts, |sep|, i, n - 1);
        assert init[i] == parts[i];
        var at := PartStart(parts, |sep|, i);
        assert Join(parts, sep) == Join(init, sep) + (sep + parts[n - 1]);
        SliceOfPrefix(Join(init, sep), sep + parts[n - 1], at, at + |parts[i]|);
      } else {
        SliceOfSuffix(Join(init, sep) + sep, parts[n - 1]);
      }
    }
  }

  /** In `sep.join(parts)`, every part but the first comes right after a separator. */
  lemma {:induction false} JoinSeparatorBefore(parts: seq<string>, sep: string, i: nat)
    requires 0 < i < |parts|
    ensures |sep| <= PartStart(parts, |sep|, i) <= |Join(parts, sep)|
    ensures Join(parts, sep)[PartStart(parts, |sep|, i) - |sep|..PartStart(parts, |sep|, i)] == sep
  {
    var n := |parts|;
    var init := parts[..n - 1];
    JoinLast(parts, sep);
    if i < n - 1 {
      JoinSeparatorBefore(init, sep, i);
      PartStartPrefix(parts, |sep|, i, n - 1);
      var at := PartStart(parts, |sep|, i);
      SliceOfPrefix(Join(init, sep), sep + parts[n - 1], at - |sep|, at);
    }
  }

  lemma SliceOfSuffix(front: string, back: string)
    ensures (front + back)[|front|..|front| + |back|] == back
  {
  }

  lemma SliceOfPrefix(front: string, back: string, a: nat, b: nat)
    requires a <= b <= |front|
    ensures (front + back)[a..b] == front[a..b]
  {
  }

  /**
   * The last part starts right after the joined earlier parts and a
   * separator; the second conjunct is `Join`'s own unfolding, stated so that
   * callers can use both facts together.
   */
  lemma JoinLast(parts: seq<string>, sep: string)
    requires |parts| > 1
    ensures var s, at := Join(parts, sep), PartStart(parts, |sep|, |parts| - 1);
      && at == |Join(parts[..|parts| - 1], sep)| + |sep|
      && s == Join(parts[..|parts| - 1], sep) + sep + parts[|parts| - 1]
  {
    var n := |parts|;
    JoinLength(parts[..n - 1], sep);
    PartStartPrefix(parts, |sep|, n - 2, n - 1);
  }

  /**
   * Export writes exactly one block per message, in history order: message
   * `i`'s block stands at `PartStart(i)`, preceded by a blank line unless it
   * is the first.
   */
  lemma ExportLayout(history: seq<Message>, i: nat)
    requires i < |history|
    ensures var s, at := Export(history), PartStart(Blocks(history), 2, i);
      && at + |Block(history[i])| <= |s|
      && s[at..at + |Block(history[i])|] == Block(history[i])
      && (i > 0 ==> s[at - 2..at] == "\n\n")
  {
    var parts := Blocks(history);
    JoinPartAt(parts, BlockSeparator, i);
    if i > 0 {
      JoinSeparatorBefore(parts, BlockSeparator, i);
    }
    BlocksAt(history, i);
  }

  /** Adding a message to a non-empty history adds a blank line and its block at the end. */
  lemma ExportAppend(history: seq<Message>, m: Message)
    requires history != []
    ensures Export(history + [m]) == Export(history) + "\n\n" + Block(m)
  {
    assert (history + [m])[..|history|] == history;
  }

  /** A block starts with "**You:** " exactly when the message is from the user, and the transcript agrees. */
  lemma BlockLabelIff(m: Message)
    ensures YouLabel <= Block(m) <==> FromUser(m)
    ensures AssistantLabel <= Block(m) <==> !FromUser(m)
    ensures FromUser(m) <==> RoleOf(m) == User
  {
    if !FromUser(m) {
      assert Block(m)[2] == 'A' != YouLabel[2];
    } else {
      assert Block(m)[2] == 'Y' != AssistantLabel[2];
    }
  }

  /** Every block reads back as the role the transcript shows and the message text. */
  lemma ParseBlockRoundTrip(m: Message)
    ensures ParseBlock(Block(m)) == Some((RoleOf(m), m.content))
  {
    BlockLabelIff(m);
    var b := Block(m);
    if FromUser(m) {
      assert b[..|YouLabel|] == YouLabel;
      assert b[|YouLabel|..] == m.content;
    } else {
      assert b[..|YouLabel|] != YouLabel;
      assert b[..|AssistantLabel|] == AssistantLabel;
      assert b[|AssistantLabel|..] == m.content;
    }
  }
}
