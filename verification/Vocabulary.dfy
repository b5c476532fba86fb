/** The enums every store shares (crates/core/src/status.rs, crates/core/src/kind.rs). */
module Vocabulary {
  datatype Status = Idle | Done | Running | Pending | Error {
    predicate IsCompletion() {
      Done? || Error?
    }

    predicate NeedsAttention() {
      Pending? || Error? || Done?
    }
  }

  datatype Kind =
    | Claude | Codex | Opencode | Pi | Omp | Gemini
    | Command | Other | Test | Build | Deploy | Server | Remote
  {
    predicate IsRemote() {
      Remote?
    }

    /** Unending by design: a running row holds a steady mark. */
    predicate IsSteady() {
      Server? || Remote?
    }
  }

  /** `Status::from_wire`: an unknown token is idle. */
  function StatusFromWire(token: string): Status {
    if token == "done" then Status.Done
    else if token == "running" then Status.Running
    else if token == "pending" then Status.Pending
    else if token == "error" then Status.Error
    else Status.Idle
  }

  /** `Kind::from_source`: an unknown source is some other agent. */
  function KindFromSource(source: string): Kind {
    if source == "claude" then Kind.Claude
    else if source == "codex" then Kind.Codex
    else if source == "opencode" then Kind.Opencode
    else if source == "pi" then Kind.Pi
    else if source == "omp" then Kind.Omp
    else if source == "gemini" then Kind.Gemini
    else if source == "command" then Kind.Command
    else if source == "test" then Kind.Test
    else if source == "build" then Kind.Build
    else if source == "deploy" then Kind.Deploy
    else if source == "server" then Kind.Server
    else if source == "remote" then Kind.Remote
    else Kind.Other
  }

  /** Which statuses are completions, and which want the user. */
  lemma StatusClasses(s: Status)
    ensures s.IsCompletion() <==> s in {Status.Done, Status.Error}
    ensures s.NeedsAttention() <==> s in {Status.Pending, Status.Error, Status.Done}
  {
  }

  /** Servers and remote sessions never end by themselves. */
  lemma KindClasses(k: Kind)
    ensures k.IsSteady() <==> k in {Kind.Server, Kind.Remote}
    ensures k.IsRemote() <==> k == Kind.Remote
  {
  }
}
