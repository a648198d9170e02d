// Rotating a webhook signing secret: services/webhooks/internal/adapters/
// postgres/repo.go:195-220, services/webhooks/internal/app/service.go:132-146
// and services/webhooks/internal/domain/domain.go:234-247.
module Rotations {
  import opened Int64
  import opened Wrappers
  import opened Domain
  import opened Signatures

  // 24 hours, in microseconds.
  const ROTATION_GRACE: Time := 24 * 3600 * 1_000_000

  datatype Secrets = Secrets(current: string, previous: Option<string>, expires: Option<Time>)

  function Rotated(s: Secrets, secret: string, expires: Time): Secrets {
    Secrets(secret, Some(s.current), Some(expires))
  }

  // purge_expired_previous_secrets.
  function Purged(s: Secrets, now: Time): Secrets {
    if s.previous.Some? && s.expires.Some? && s.expires.value <= now then Secrets(s.current, None, None) else s
  }

  function SigningSecrets(s: Secrets, now: Time): seq<string> {
    [s.current]
    + if s.previous.Some? && s.previous.value != "" && s.expires.Some? && now < s.expires.value then [s.previous.value] else []
  }

  class Subscription {
    var secret: string
    var previousSecret: Option<string>
    var previousSecretExpiresAt: Option<Time>

    constructor (first: string)
      ensures View() == Secrets(first, None, None)
    {
      secret, previousSecret, previousSecretExpiresAt := first, None, None;
    }

    function View(): Secrets
      reads this
    {
      Secrets(secret, previousSecret, previousSecretExpiresAt)
    }

    // The service fixes the grace window, the repository moves the columns.
    method RotateSecret(fresher: string, now: Time) returns (expires: Time)
      modifies this
      ensures expires - now == 86_400_000_000
      ensures View() == Rotated(old(View()), fresher, now + ROTATION_GRACE)
    {
      expires := now + ROTATION_GRACE;
      previousSecret := Some(secret);
      previousSecretExpiresAt := Some(expires);
      secret := fresher;
    }

    method PurgeExpired(now: Time)
      modifies this
      ensures View() == Purged(old(View()), now)
    {
      if previousSecret.Some? && previousSecretExpiresAt.Some? && previousSecretExpiresAt.value <= now {
        previousSecret, previousSecretExpiresAt := None, None;
      }
    }

    method SecretsToSign(now: Time) returns (out: seq<string>)
      ensures out == SigningSecrets(View(), now)
    {
      out := [secret];
      if previousSecret.Some? && previousSecret.value != "" && previousSecretExpiresAt.Some?
         && now < previousSecretExpiresAt.value {
        out := out + [previousSecret.value];
      }
    }
  }

  // The clean-up job, run any number of times.
  function PurgedAll(s: Secrets, times: seq<Time>): Secrets {
    if times == [] then s else Purged(PurgedAll(s, times[..|times| - 1]), times[|times| - 1])
  }

  // A purge keeps a previous secret exactly while its window is open, and
  // never touches the current one.
  lemma PurgeExact(s: Secrets, now: Time)
    ensures Purged(s, now).current == s.current
    ensures s.previous.Some? && s.expires.Some? ==>
              && (now < s.expires.value ==> Purged(s, now) == s)
              && (now >= s.expires.value ==> Purged(s, now).previous.None? && Purged(s, now).expires.None?)
    ensures s.previous.None? || s.expires.None? ==> Purged(s, now) == s
  {
  }

  // Purging in time changes nothing about who signs.
  lemma {:induction false} PurgeHarmless(s: Secrets, times: seq<Time>, now: Time)
    requires forall i :: 0 <= i < |times| ==> times[i] <= now
    ensures SigningSecrets(PurgedAll(s, times), now) == SigningSecrets(s, now)
    ensures PurgedAll(s, times) == s || PurgedAll(s, times) == Secrets(s.current, None, None)
  {
    if times != [] {
      PurgeHarmless(s, times[..|times| - 1], now);
    }
  }

  // After a rotation, deliveries signed inside the grace window verify with
  // the old secret as well as with the new one.
  lemma GraceVerifies(mac: Mac, s: Secrets, fresher: string, at: Time, purges: seq<Time>, now: Time, t: int, body: seq<byte>,
                      clock: int, tolerance: int, secret: string)
    requires s.current != "" && (secret == s.current || secret == fresher)
    requires forall i :: 0 <= i < |purges| ==> purges[i] <= now
    requires now < at + ROTATION_GRACE
    requires Fits(t) && Recent(clock, t, tolerance)
    ensures var later := PurgedAll(Rotated(s, fresher, at + ROTATION_GRACE), purges);
            Verdict(mac, secret, HeaderText(mac, SigningSecrets(later, now), t, body), body, clock, tolerance).None?
  {
    var rotated := Rotated(s, fresher, at + ROTATION_GRACE);
    PurgeHarmless(rotated, purges, now);
    assert SigningSecrets(rotated, now) == [fresher, s.current];
    EverySecretVerifies(mac, [fresher, s.current], t, body, secret, clock, tolerance);
  }

  lemma SigningNow(s: Secrets, fresher: string, expires: Time, now: Time)
    ensures SigningSecrets(Rotated(s, fresher, expires), now)
         == if s.current != "" && now < expires then [fresher, s.current] else [fresher]
  {
  }

  lemma OneSecret(mac: Mac, a: string, t: int, body: seq<byte>, secret: string, clock: int, tolerance: int)
    requires Fits(t) && Recent(clock, t, tolerance)
    ensures Verdict(mac, secret, HeaderText(mac, [a], t, body), body, clock, tolerance).None?
       <==> mac(a, t, body) == mac(secret, t, body)
  {
    OnlyThoseVerify(mac, [a], t, body, secret, clock, tolerance);
    assert [a][0] == a;
  }

  lemma TwoSecrets(mac: Mac, a: string, b: string, t: int, body: seq<byte>, secret: string, clock: int, tolerance: int)
    requires Fits(t) && Recent(clock, t, tolerance)
    ensures Verdict(mac, secret, HeaderText(mac, [a, b], t, body), body, clock, tolerance).None?
       <==> mac(a, t, body) == mac(secret, t, body) || mac(b, t, body) == mac(secret, t, body)
  {
    OnlyThoseVerify(mac, [a, b], t, body, secret, clock, tolerance);
    assert [a, b][0] == a && [a, b][1] == b;
  }

  // What a receiver holding some secret accepts after a rotation: signatures
  // by the new secret, and inside the window those by the old one.
  lemma AcceptedNow(mac: Mac, s: Secrets, fresher: string, expires: Time, now: Time, t: int, body: seq<byte>, secret: string,
                    clock: int, tolerance: int)
    requires Fits(t) && Recent(clock, t, tolerance)
    ensures var header := HeaderText(mac, SigningSecrets(Rotated(s, fresher, expires), now), t, body);
            Verdict(mac, secret, header, body, clock, tolerance).None?
            <==> || mac(fresher, t, body) == mac(secret, t, body)
                 || (s.current != "" && now < expires && mac(s.current, t, body) == mac(secret, t, body))
  {
    SigningNow(s, fresher, expires, now);
    if s.current != "" && now < expires {
      TwoSecrets(mac, fresher, s.current, t, body, secret, clock, tolerance);
    } else {
      OneSecret(mac, fresher, t, body, secret, clock, tolerance);
    }
  }

  // A receiver still on the old secret accepts exactly until the window
  // closes, short of a coinciding MAC.
  lemma GraceExact(mac: Mac, s: Secrets, fresher: string, at: Time, purges: seq<Time>, now: Time, t: int, body: seq<byte>,
                   clock: int, tolerance: int)
    requires s.current != ""
    requires forall i :: 0 <= i < |purges| ==> purges[i] <= now
    requires Fits(t) && Recent(clock, t, tolerance)
    ensures var later := PurgedAll(Rotated(s, fresher, at + ROTATION_GRACE), purges);
            Verdict(mac, s.current, HeaderText(mac, SigningSecrets(later, now), t, body), body, clock, tolerance).None?
            <==> now < at + ROTATION_GRACE || mac(fresher, t, body) == mac(s.current, t, body)
  {
    var expires := at + ROTATION_GRACE;
    PurgeHarmless(Rotated(s, fresher, expires), purges, now);
    AcceptedNow(mac, s, fresher, expires, now, t, body, s.current, clock, tolerance);
  }

  // A second rotation ends the first one's window at once: from then on only
  // the two newer secrets count.
  lemma SecondRotation(mac: Mac, s: Secrets, first: string, at: Time, second: string, later: Time, now: Time, t: int,
                       body: seq<byte>, clock: int, tolerance: int)
    requires Fits(t) && Recent(clock, t, tolerance)
    ensures var twice := Rotated(Rotated(s, first, at + ROTATION_GRACE), second, later + ROTATION_GRACE);
            Verdict(mac, s.current, HeaderText(mac, SigningSecrets(twice, now), t, body), body, clock, tolerance).None?
            <==> || mac(second, t, body) == mac(s.current, t, body)
                 || (first != "" && now < later + ROTATION_GRACE && mac(first, t, body) == mac(s.current, t, body))
  {
    AcceptedNow(mac, Rotated(s, first, at + ROTATION_GRACE), second, later + ROTATION_GRACE, now, t, body, s.current,
                clock, tolerance);
  }
}
