/** What a Host block proposes: which of its aliases, in which order, and with which texts. */
module SshProposals {
  import opened Wrappers
  import opened Seqs
  import opened SshImport

  /** Letters, digits and `.`, `_`, `-`, `@`, `:`, not beginning with a dash: no pattern and no option of ssh. */
  predicate IsPlainAlias(alias: string) {
    && alias != "" && alias[0] != '-'
    && forall i :: 0 <= i < |alias| ==>
         'A' <= alias[i] <= 'Z' || 'a' <= alias[i] <= 'z' || '0' <= alias[i] <= '9' || alias[i] in "._-@:"
  }

  /** What the user is offered for an alias of a block with these settings. */
  function Offer(b: Block): string -> Proposal {
    (alias: string) =>
      Proposal(alias,
        if b.hostName == None then alias
        else if b.user == None then b.hostName.value
        else b.user.value + "@" + b.hostName.value,
        "ssh " + alias, "ssh " + alias + " 'swimmers serve'", b.source, b.line, b.hostName, b.user)
  }

  lemma PlainAliasMeaning(alias: string)
    ensures IsImportable(alias) <==> IsPlainAlias(alias)
  {
    if alias != "" {
      forall i | 0 <= i < |alias|
        ensures IsAliasChar(alias[i]) <==>
          'A' <= alias[i] <= 'Z' || 'a' <= alias[i] <= 'z' || '0' <= alias[i] <= '9' || alias[i] in "._-@:"
      {
      }
      if IsPlainAlias(alias) {
        assert alias[0] != '!';
      }
    }
  }

  /** A block proposes its plain aliases in their order, each with all the block's settings, and nothing else. */
  lemma {:induction false} BlockMeaning(aliases: seq<string>, b: Block)
    ensures ProposalsOf(aliases, b) == Map(Offer(b), Filter(IsPlainAlias, aliases))
  {
    if aliases != [] {
      BlockMeaning(aliases[1..], b);
      PlainAliasMeaning(aliases[0]);
    }
  }

  lemma {:induction false} FlushMeaning(b: Block)
    ensures Flush(b) == Map(Offer(b), Filter(IsPlainAlias, b.aliases))
  {
    BlockMeaning(b.aliases, b);
  }
}
