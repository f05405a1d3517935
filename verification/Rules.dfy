/**
 The replacement list of the rebranding script, in its order, and the facts
 about its strings that the proofs rest on.
 */
module Rules {
  import opened Substitution
  import opened WholeWord
  import opened Chain

  const REPLACEMENTS: seq<Rule> := [
    Plain("checkpoints.moneropulse.co", "checkpoints.velkavo.com"),
    Plain("checkpoints.moneropulse.net", "checkpoints.velkavo.com"),
    Plain("checkpoints.moneropulse.org", "checkpoints.velkavo.com"),
    Plain("testpoints.moneropulse.co", "testpoints.velkavo.com"),
    Plain("testpoints.moneropulse.net", "testpoints.velkavo.com"),
    Plain("testpoints.moneropulse.org", "testpoints.velkavo.com"),
    Plain("updates.moneropulse.ch", "updates.velkavo.com"),
    Plain("updates.moneropulse.co", "updates.velkavo.com"),
    Plain("updates.moneropulse.de", "updates.velkavo.com"),
    Plain("updates.moneropulse.fr", "updates.velkavo.com"),
    Plain("updates.moneropulse.net", "updates.velkavo.com"),
    Plain("updates.moneropulse.org", "updates.velkavo.com"),
    Plain("updates.moneropulse.se", "updates.velkavo.com"),
    Plain("moneropulse", "velkavopulse"),
    Plain("MONEROD", "VELKAROD"),
    Plain("Monerod", "Velkarod"),
    Plain("monerod", "velkarod"),
    Plain("monero-wallet-cli", "velkavo-wallet-cli"),
    Plain("monero-wallet-rpc", "velkavo-wallet-rpc"),
    Plain("monero-gen-multisig", "velkavo-gen-multisig"),
    Plain("monero-blockchain", "velkavo-blockchain"),
    Plain("monero-crypto", "velkavo-crypto"),
    Plain("monero_crypto", "velkavo_crypto"),
    Plain("messages-monero", "messages-velkavo"),
    Plain("messages_monero", "messages_velkavo"),
    Plain("hw.trezor.messages.monero", "hw.trezor.messages.velkavo"),
    Plain("millinero", "millivkavo"),
    Plain("micronero", "microvkavo"),
    Plain("nanonero", "nanovkavo"),
    Plain("piconero", "picovkavo"),
    Plain("unsigned_monero_tx", "unsigned_velkavo_tx"),
    Plain("The Monero Project", "Velkavo"),
    Plain("MONERO", "VELKAVO"),
    Plain("Monero", "Velkavo"),
    Plain("monero", "velkavo"),
    Ticker("XMR", "VKV")
  ]

  /** The index of the one `Ticker` entry; all entries before it are `Plain`. */
  const TICKER: nat := 35

  /** The index of the first entry that does not rewrite a full URL. */
  const AFTER_URLS: nat := 13

  /** The index of the first `v` of each plain replacement. */
  const SHIELD: seq<nat> := [
    12, 12, 12, 11, 11, 11, 8, 8, 8, 8, 8, 8, 8, 0, 0, 0, 0, 0, 0, 0, 0, 0, 0, 9, 9, 19, 5, 5, 4, 4, 9, 0, 0, 0, 0
  ]

  predicate IsPlain(j: nat) {
    j < TICKER && REPLACEMENTS[j].Plain?
  }

  /** A plain search string could start at index `k` of `s`, judged by its first two characters
      (three after `c`). */
  predicate Head(s: string, k: nat)
    requires k + 1 < |s|
  {
    var a, b := s[k], s[k + 1];
    || (a == 'c' && b == 'h' && (k + 2 < |s| ==> s[k + 2] == 'e'))
    || (a == 't' && b == 'e') || (a == 'u' && (b == 'p' || b == 'n'))
    || (a == 'm' && (b == 'o' || b == 'e' || b == 'i')) || (a == 'M' && (b == 'O' || b == 'o'))
    || (a == 'h' && b == 'w') || (a == 'n' && b == 'a') || (a == 'p' && b == 'i') || (a == 'T' && b == 'h')
  }

  /** The first characters of the plain search strings up to entry `j`: the URLs do not start with `m`. */
  predicate Opener(j: nat, a: char) {
    a == 'c' || a == 't' || a == 'u' || a == 'M' || a == 'h' || a == 'n' || a == 'p' || a == 'T'
    || (j >= AFTER_URLS && a == 'm')
  }

  /** What the proofs use of a plain entry; `p` is the index of the first `v` of its replacement. */
  predicate Harmless(j: nat, pat: string, rep: string, p: nat) {
    && VFree(pat) && |pat| >= 3 && Head(pat, 0) && Opener(j, pat[0])
    && Shields(pat, rep, p)
    && (forall k | p < k < |rep| - 1 :: !Head(rep, k))
    && rep[|rep| - 1] != pat[0]
    && (Opener(j, rep[|rep| - 1]) ==> rep[|rep| - 1] == pat[|pat| - 1])
  }

  lemma CheckpointUrls()
    ensures Harmless(0, "checkpoints.moneropulse.co", "checkpoints.velkavo.com", 12)
    ensures Harmless(1, "checkpoints.moneropulse.net", "checkpoints.velkavo.com", 12)
    ensures Harmless(2, "checkpoints.moneropulse.org", "checkpoints.velkavo.com", 12)
  {
    assert forall k | 12 < k < 22 :: !Head("checkpoints.velkavo.com", k);
  }

  lemma TestpointUrls()
    ensures Harmless(3, "testpoints.moneropulse.co", "testpoints.velkavo.com", 11)
    ensures Harmless(4, "testpoints.moneropulse.net", "testpoints.velkavo.com", 11)
    ensures Harmless(5, "testpoints.moneropulse.org", "testpoints.velkavo.com", 11)
  {
    assert forall k | 11 < k < 21 :: !Head("testpoints.velkavo.com", k);
  }

  lemma UpdateUrls()
    ensures Harmless(6, "updates.moneropulse.ch", "updates.velkavo.com", 8)
    ensures Harmless(7, "updates.moneropulse.co", "updates.velkavo.com", 8)
    ensures Harmless(8, "updates.moneropulse.de", "updates.velkavo.com", 8)
    ensures Harmless(9, "updates.moneropulse.fr", "updates.velkavo.com", 8)
  {
    assert forall k | 8 < k < 18 :: !Head("updates.velkavo.com", k);
  }

  lemma MoreUpdateUrls()
    ensures Harmless(10, "updates.moneropulse.net", "updates.velkavo.com", 8)
    ensures Harmless(11, "updates.moneropulse.org", "updates.velkavo.com", 8)
    ensures Harmless(12, "updates.moneropulse.se", "updates.velkavo.com", 8)
  {
    assert forall k | 8 < k < 18 :: !Head("updates.velkavo.com", k);
  }

  lemma DaemonNames()
    ensures Harmless(13, "moneropulse", "velkavopulse", 0)
    ensures Harmless(14, "MONEROD", "VELKAROD", 0)
    ensures Harmless(15, "Monerod", "Velkarod", 0)
    ensures Harmless(16, "monerod", "velkarod", 0)
  {
    assert forall k | 0 < k < 11 :: !Head("velkavopulse", k);
    assert forall k | 0 < k < 7 :: !Head("VELKAROD", k);
    assert forall k | 0 < k < 7 :: !Head("Velkarod", k);
    assert forall k | 0 < k < 7 :: !Head("velkarod", k);
  }

  lemma WalletNames()
    ensures Harmless(17, "monero-wallet-cli", "velkavo-wallet-cli", 0)
    ensures Harmless(18, "monero-wallet-rpc", "velkavo-wallet-rpc", 0)
  {
    assert forall k | 0 < k < 17 :: !Head("velkavo-wallet-cli", k);
    assert forall k | 0 < k < 17 :: !Head("velkavo-wallet-rpc", k);
  }

  lemma ToolNames()
    ensures Harmless(19, "monero-gen-multisig", "velkavo-gen-multisig", 0)
    ensures Harmless(20, "monero-blockchain", "velkavo-blockchain", 0)
  {
    assert forall k | 0 < k < 19 :: !Head("velkavo-gen-multisig", k);
    assert forall k | 0 < k < 17 :: !Head("velkavo-blockchain", k);
  }

  lemma CryptoNames()
    ensures Harmless(21, "monero-crypto", "velkavo-crypto", 0)
    ensures Harmless(22, "monero_crypto", "velkavo_crypto", 0)
  {
    assert forall k | 0 < k < 13 :: !Head("velkavo-crypto", k);
    assert forall k | 0 < k < 13 :: !Head("velkavo_crypto", k);
  }

  lemma MessageNames()
    ensures Harmless(23, "messages-monero", "messages-velkavo", 9)
    ensures Harmless(24, "messages_monero", "messages_velkavo", 9)
  {
    assert forall k | 9 < k < 15 :: !Head("messages-velkavo", k);
    assert forall k | 9 < k < 15 :: !Head("messages_velkavo", k);
  }

  lemma DeviceAndMilli()
    ensures Harmless(25, "hw.trezor.messages.monero", "hw.trezor.messages.velkavo", 19)
    ensures Harmless(26, "millinero", "millivkavo", 5)
  {
    assert forall k | 19 < k < 25 :: !Head("hw.trezor.messages.velkavo", k);
    assert forall k | 5 < k < 9 :: !Head("millivkavo", k);
  }

  lemma SubunitNames()
    ensures Harmless(27, "micronero", "microvkavo", 5)
    ensures Harmless(28, "nanonero", "nanovkavo", 4)
    ensures Harmless(29, "piconero", "picovkavo", 4)
  {
    assert forall k | 5 < k < 9 :: !Head("microvkavo", k);
    assert forall k | 4 < k < 8 :: !Head("nanovkavo", k);
    assert forall k | 4 < k < 8 :: !Head("picovkavo", k);
  }

  lemma FileAndProjectNames()
    ensures Harmless(30, "unsigned_monero_tx", "unsigned_velkavo_tx", 9)
    ensures Harmless(31, "The Monero Project", "Velkavo", 0)
  {
    assert forall k | 9 < k < 18 :: !Head("unsigned_velkavo_tx", k);
    assert forall k | 0 < k < 6 :: !Head("Velkavo", k);
  }

  lemma GeneralNames()
    ensures Harmless(32, "MONERO", "VELKAVO", 0)
    ensures Harmless(33, "Monero", "Velkavo", 0)
    ensures Harmless(34, "monero", "velkavo", 0)
  {
    assert forall k | 0 < k < 6 :: !Head("VELKAVO", k);
    assert forall k | 0 < k < 6 :: !Head("Velkavo", k);
    assert forall k | 0 < k < 6 :: !Head("velkavo", k);
  }

  lemma UrlsHarmless(j: nat)
    requires j < 13
    ensures IsPlain(j) && Harmless(j, REPLACEMENTS[j].pat, REPLACEMENTS[j].rep, SHIELD[j])
  {
    if j < 3 {
      CheckpointUrls();
    } else if j < 6 {
      TestpointUrls();
    } else if j < 10 {
      UpdateUrls();
    } else {
      MoreUpdateUrls();
    }
  }

  lemma NamesHarmless(j: nat)
    requires 13 <= j < 23
    ensures IsPlain(j) && Harmless(j, REPLACEMENTS[j].pat, REPLACEMENTS[j].rep, SHIELD[j])
  {
    if j < 17 {
      DaemonNames();
    } else if j < 19 {
      WalletNames();
    } else if j < 21 {
      ToolNames();
    } else {
      CryptoNames();
    }
  }

  lemma MessagesHarmless(j: nat)
    requires 23 <= j < 30
    ensures IsPlain(j) && Harmless(j, REPLACEMENTS[j].pat, REPLACEMENTS[j].rep, SHIELD[j])
  {
    if j < 25 {
      MessageNames();
    } else if j < 27 {
      DeviceAndMilli();
    } else {
      SubunitNames();
    }
  }

  lemma GeneralHarmless(j: nat)
    requires 30 <= j < TICKER
    ensures IsPlain(j) && Harmless(j, REPLACEMENTS[j].pat, REPLACEMENTS[j].rep, SHIELD[j])
  {
    if j < 32 {
      FileAndProjectNames();
    } else {
      GeneralNames();
    }
  }

  /** Every plain entry is harmless. */
  lemma AllHarmless(j: nat)
    requires j < TICKER
    ensures IsPlain(j) && Harmless(j, REPLACEMENTS[j].pat, REPLACEMENTS[j].rep, SHIELD[j])
  {
    if j < 13 {
      UrlsHarmless(j);
    } else if j < 23 {
      NamesHarmless(j);
    } else if j < 30 {
      MessagesHarmless(j);
    } else {
      GeneralHarmless(j);
    }
  }

  /** A v-free string that starts as a search string may does not start inside a replacement. */
  lemma HarmlessIsInert(j: nat, pat: string, rep: string, p: nat, s: string)
    requires Harmless(j, pat, rep, p)
    requires VFree(s) && |s| >= 3 && Head(s, 0)
    requires s != pat ==> Opener(j, s[0])
    ensures Inert(pat, rep, p, s)
  {
    forall k | p < k < |rep| - 1 ensures Clash(rep, s, k) {
      assert !Head(rep, k);
      if s[0] == rep[k] && s[1] == rep[k + 1] {
        assert s[2] != rep[2 + k];
      }
    }
  }

  lemma TickerEntry(isWord: char -> bool)
    requires LettersAreWord(isWord)
    ensures |REPLACEMENTS| == TICKER + 1
    ensures REPLACEMENTS[TICKER] == Ticker("XMR", "VKV") && TickerLike(isWord, "XMR", "VKV")
  {
    assert isWord('X') && isWord('R') && isWord('V');
    var word, rep := "XMR", "VKV";
    assert word[0] == 'X' && word[2] == 'R' && rep[0] == 'V' && rep[2] == 'V';
  }

  lemma EntriesSpare(isWord: char -> bool, i: nat, j: nat)
    requires LettersAreWord(isWord) && i <= j <= TICKER
    ensures Spares(isWord, REPLACEMENTS[j], REPLACEMENTS[i])
  {
    TickerEntry(isWord);
    if i < TICKER { AllHarmless(i); }
    if j < TICKER {
      AllHarmless(j);
      HarmlessIsInert(j, REPLACEMENTS[j].pat, REPLACEMENTS[j].rep, SHIELD[j], REPLACEMENTS[i].pat);
    }
  }

  /** The script's list keeps the discipline that the chain's theorems ask for. */
  lemma ListIsDisciplined(isWord: char -> bool)
    requires LettersAreWord(isWord)
    ensures Disciplined(isWord, REPLACEMENTS)
  {
    TickerEntry(isWord);
    forall i, j | 0 <= i <= j < |REPLACEMENTS| ensures Spares(isWord, REPLACEMENTS[j], REPLACEMENTS[i]) {
      EntriesSpare(isWord, i, j);
    }
  }

  lemma ListIsProper()
    ensures Proper(REPLACEMENTS)
  {
    forall j | 0 <= j < |REPLACEMENTS| ensures REPLACEMENTS[j].pat != "" {
      if j < TICKER { AllHarmless(j); }
    }
  }

  /** The text once the first `j` entries of the script's own list have been applied. */
  function TextAfter(isWord: char -> bool, t: string, j: nat): string
    requires j <= TICKER + 1
  {
    ListIsProper();
    After(isWord, REPLACEMENTS, t, j)
  }

  /** `apply_replacements` with the script's own list. */
  function Rebranded(isWord: char -> bool, t: string): string {
    TextAfter(isWord, t, TICKER + 1)
  }

  lemma RebrandedIsApply(isWord: char -> bool, t: string)
    ensures Proper(REPLACEMENTS) && Rebranded(isWord, t) == Apply(isWord, REPLACEMENTS, t)
  {
    ListIsProper();
  }
}
