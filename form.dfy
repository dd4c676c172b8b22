/**
 * The page's form state (lines 19-28) and the three address-list editors
 * (lines 42-65): replace the entry at an index, append a blank entry,
 * delete the entry at an index. The delete button is disabled while the
 * list holds a single entry (line 207), so the list is never empty.
 */
module Form {
  import opened Wrappers
  import opened Text
  import Uuid
  import opened Addresses
  import opened Submit

  /** The list with entry `i` replaced by `v`. */
  function ReplaceAt(xs: seq<string>, i: nat, v: string): (r: seq<string>)
    requires i < |xs|
    ensures |r| == |xs| && r[i] == v
    ensures forall j | 0 <= j < |xs| && j != i :: r[j] == xs[j]
  {
    xs[..i] + [v] + xs[i + 1..]
  }

  /** The list with entry `i` deleted: `splice(i, 1)` on a copy. */
  function RemoveAt(xs: seq<string>, i: nat): (r: seq<string>)
    requires i < |xs|
    ensures |r| == |xs| - 1
    ensures forall j | 0 <= j < i :: r[j] == xs[j]
    ensures forall j | i <= j < |r| :: r[j] == xs[j + 1]
  {
    xs[..i] + xs[i + 1..]
  }

  /** Deleting an entry loses exactly that entry. */
  lemma RemoveAtMultiset(xs: seq<string>, i: nat)
    requires i < |xs|
    ensures multiset(RemoveAt(xs, i)) + multiset{xs[i]} == multiset(xs)
  {
    assert xs == xs[..i] + [xs[i]] + xs[i + 1..];
  }

  /** Writing back the value already there changes nothing. */
  lemma ReplaceAtSame(xs: seq<string>, i: nat)
    requires i < |xs|
    ensures ReplaceAt(xs, i, xs[i]) == xs
  {
  }

  /** Deleting an entry forgets any earlier change to it. */
  lemma RemoveAfterReplace(xs: seq<string>, i: nat, v: string)
    requires i < |xs|
    ensures RemoveAt(ReplaceAt(xs, i, v), i) == RemoveAt(xs, i)
  {
  }

  /** Deleting the blank entry just appended gives the list back. */
  lemma RemoveAppended(xs: seq<string>)
    ensures RemoveAt(xs + [""], |xs|) == xs
  {
  }

  /** A blank entry never reaches the generated profile: appending one does
      not change the cleaned list. */
  lemma {:induction false} AppendBlankClean(xs: seq<string>)
    ensures Clean(xs + [""]) == Clean(xs)
  {
    CleanAppend(xs, [""]);
    CleanSingle("");
    assert Clean(xs) + [] == Clean(xs);
  }

  /** Overwriting an entry with whitespace has the same effect on the
      cleaned list as deleting it. */
  lemma {:induction false} BlankingIsRemoving(xs: seq<string>, i: nat, v: string)
    requires i < |xs| && AllWhitespace(v)
    ensures Clean(ReplaceAt(xs, i, v)) == Clean(RemoveAt(xs, i))
  {
    TrimEmptyIff(v);
    CleanSingle(v);
    assert ReplaceAt(xs, i, v) == xs[..i] + ([v] + xs[i + 1..]);
    CleanAppend(xs[..i], [v] + xs[i + 1..]);
    CleanAppend([v], xs[i + 1..]);
    CleanAppend(xs[..i], xs[i + 1..]);
  }

  /** The page's state: the chosen resolver and the custom form. */
  class Page {
    var provider: Provider
    var config: CustomDnsConfig

    /** The list always holds at least one entry. */
    predicate Valid()
      reads this
    {
      |config.serverAddresses| >= 1
    }

    /** The delete button's state (line 207). */
    predicate RemoveEnabled()
      reads this
    {
      |config.serverAddresses| != 1
    }

    /** Quad9 selected, every field empty or off, HTTPS, one blank entry. */
    constructor()
      ensures provider == Quad9 && config == InitialCustomConfig
      ensures Valid()
    {
      provider := Quad9;
      config := InitialCustomConfig;
    }

    /** `handleServerAddressChange` (lines 42-49): copies the list into a
        fresh array, writes the entry, stores the array back. */
    method ChangeAddress(index: nat, value: string)
      requires Valid() && index < |config.serverAddresses|
      modifies this
      ensures Valid()
      ensures provider == old(provider)
      ensures config == old(config).(serverAddresses := ReplaceAt(old(config.serverAddresses), index, value))
    {
      var xs := config.serverAddresses;
      var copy := new string[|xs|](i requires 0 <= i < |xs| => xs[i]);
      copy[index] := value;
      config := config.(serverAddresses := copy[..]);
    }

    /** `addServerAddress` (lines 51-56): appends a blank entry. */
    method AddAddress()
      requires Valid()
      modifies this
      ensures Valid()
      ensures provider == old(provider)
      ensures config == old(config).(serverAddresses := old(config.serverAddresses) + [""])
    {
      config := config.(serverAddresses := config.serverAddresses + [""]);
    }

    /** `removeServerAddress` (lines 58-65), reachable only through the
        delete button, which is disabled on a one-entry list. */
    method RemoveAddress(index: nat)
      requires Valid() && RemoveEnabled() && index < |config.serverAddresses|
      modifies this
      ensures Valid()
      ensures provider == old(provider)
      ensures config == old(config).(serverAddresses := RemoveAt(old(config.serverAddresses), index))
    {
      var xs := config.serverAddresses;
      var copy := new string[|xs|](i requires 0 <= i < |xs| => xs[i]);
      config := config.(serverAddresses := copy[..index] + copy[index + 1..]);
    }

    /** Pressing the button: the current state goes to `handleSubmit`. */
    method Generate(sha1: string -> Uuid.Digest) returns (download: Option<Download>)
      ensures download == Submitted(sha1, provider, config)
    {
      download := HandleSubmit(sha1, provider, config);
    }
  }

  /** The untouched custom form produces nothing: its one entry is blank. */
  lemma InitialCustomRejected(sha1: string -> Uuid.Digest)
    ensures Submitted(sha1, Custom, InitialCustomConfig) == None
  {
    CleanSingle("");
    assert Clean([""]) == [];
    ShortListRejected(sha1, InitialCustomConfig);
  }
}
