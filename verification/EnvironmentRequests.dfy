/**
 The requests on environments as the service runs them, cut at their awaits: what a request does
 before it calls the host, what the host's answer does, and the last write. Between two segments
 of a request any number of segments of others may run; each one, in whatever world it finds, is
 one enabled step of `Lifecycle`, so its theorems cover every interleaving of these methods.
 */
module EnvironmentRequests {
  import opened Environments
  import opened Lifecycle

  const NO_CLIENT := "no BONNIE client registered for agent"

  /** What came of asking the host; Gone includes "not found". */
  datatype CreateAnswer = CreateNoClient | Made(cid: string) | CreateRejected(why: string)
  datatype MoveAnswer = MoveNoClient | Moved | MoveRejected(why: string)
  datatype RemoveAnswer = RemoveNoClient | Gone | RemoveRejected(why: string)

  datatype Begun =
    | Asked
    | NameRequired | ImageRequired | NoAgent | NameTaken
    | NoEnvironment | WrongState | StillCreating

  /** What the caller is told; a row that cannot be read back is an error of the server. */
  datatype Response = Created(cid: string) | NoContent | BadGateway(message: string) | ServerError

  function CreateFailure(why: string): string { "create container on agent failed: " + why }

  function MoveFailure(start: bool, why: string): string {
    if start then "start container failed: " + why else "stop container failed: " + why
  }

  function RemoveFailure(why: string): string { "remove container failed: " + why }

  /** The step of the host's answer; without a client a start, stop or removal just ends. */
  function CreateEvent(op: nat, answer: CreateAnswer): Event {
    match answer
    case CreateNoClient => HostRefuses(op, NO_CLIENT)
    case CreateRejected(why) => HostRefuses(op, CreateFailure(why))
    case Made(cid) => HostCreates(op, cid)
  }

  function MoveEvent(op: nat, start: bool, answer: MoveAnswer): Event {
    match answer
    case MoveNoClient => Dies(op)
    case MoveRejected(why) => HostMoveFails(op, MoveFailure(start, why))
    case Moved => HostMoves(op)
  }

  function RemoveEvent(op: nat, answer: RemoveAnswer): Event {
    match answer
    case RemoveNoClient => Dies(op)
    case RemoveRejected(why) => HostRemoveFails(op, RemoveFailure(why))
    case Gone => HostRemoves(op)
  }

  /** The step is possible in the one world and leads to the other. */
  predicate Steps(w: World, e: Event, t: World) {
    Enabled(w, e) && t == Step(w, e)
  }

  class EnvironmentService {
    var now: int
    var agents: set<nat>
    var rows: map<nat, Row>
    var used: set<nat>
    var live: map<Key, bool>
    var issued: map<Key, string>
    var ops: map<nat, Op>                 // the requests in flight, with what each remembers

    ghost function View(): World
      reads this
    {
      World(now, agents, rows, used, live, issued, ops)
    }

    method SetRow(env: nat, status: Status, message: string)
      modifies this`rows
      ensures rows == SetStatus(old(rows), env, status, message)
    {
      if env in rows { rows := rows[env := rows[env].(status := status, message := message)]; }
    }

    // ----- create -----

    /** Checks the request and commits the row. */
    method BeginCreate(op: nat, env: nat, agent: nat, name: string, image: string) returns (begun: Begun)
      requires op !in ops && env !in used
      modifies this`rows, this`used, this`ops
      ensures begun == NameRequired <==> name == ""
      ensures begun == ImageRequired <==> name != "" && image == ""
      ensures begun == NoAgent <==> name != "" && image != "" && agent !in agents
      ensures begun == NameTaken <==>
                name != "" && image != "" && agent in agents
                && exists e :: e in old(rows) && old(rows)[e].agent == agent && old(rows)[e].name == name
      ensures begun in {NameRequired, ImageRequired, NoAgent, NameTaken, Asked}
      ensures if begun == Asked then Steps(old(View()), Insert(op, env, agent, name), View()) else View() == old(View())
    {
      if name == "" { return NameRequired; }
      if image == "" { return ImageRequired; }
      if agent !in agents { return NoAgent; }
      if !NameFree(rows, agent, name) { return NameTaken; }
      rows, used := rows[env := Row(agent, name, "", Creating, "", now)], used + {env};
      ops := ops[op := CreateAsked(env, agent, name)];
      return Asked;
    }

    /** The host makes the container, or it refuses, or there is no client. */
    method AnswerCreate(op: nat, answer: CreateAnswer)
      requires op in ops && ops[op].CreateAsked? && (answer.Made? ==> FreshId(View(), ops[op].agent, answer.cid))
      modifies this`live, this`issued, this`ops
      ensures Steps(old(View()), CreateEvent(op, answer), View())
      ensures var was := old(ops)[op];
              op in ops
              && match answer
                 case Made(cid) => ops[op] == CreateAccepted(was.env, was.agent, was.name, cid)
                 case CreateRejected(why) =>
                   ops[op] == CreateRefused(was.env, was.agent, was.name, CreateFailure(why))
                   && live == old(live)
                 case CreateNoClient =>
                   ops[op] == CreateRefused(was.env, was.agent, was.name, NO_CLIENT)
                   && live == old(live)
    {
      var CreateAsked(env, agent, name) := ops[op];
      match answer
      case CreateNoClient => ops := ops[op := CreateRefused(env, agent, name, NO_CLIENT)];
      case CreateRejected(why) => ops := ops[op := CreateRefused(env, agent, name, CreateFailure(why))];
      case Made(cid) =>
        live, issued := live[(agent, cid) := false], issued[(agent, cid) := name];
        ops := ops[op := CreateAccepted(env, agent, name, cid)];
    }

    /** Binds the row and reads it back, or marks it; a row that is gone by now stays gone, and
        reading it back fails. */
    method FinishCreate(op: nat) returns (response: Response)
      requires op in ops && (ops[op].CreateAccepted? || ops[op].CreateRefused?)
      modifies this`rows, this`ops
      ensures Steps(old(View()), Finish(op), View())
      ensures var request := old(ops)[op];
              response == if request.CreateRefused? then BadGateway(request.why)
                          else if request.env in old(rows) then Created(request.cid)
                          else ServerError
    {
      var request := ops[op];
      if request.CreateAccepted? {
        response := ServerError;
        if request.env in rows {
          rows := rows[request.env := rows[request.env].(cid := request.cid, status := Stopped, message := "")];
          response := Created(request.cid);
        }
      } else {
        SetRow(request.env, Error, request.why);
        response := BadGateway(request.why);
      }
      ops := ops - {op};
    }

    // ----- start and stop -----

    /** Only from the matching state. */
    method BeginTransition(op: nat, env: nat, start: bool) returns (begun: Begun)
      requires op !in ops
      modifies this`ops
      ensures begun == NoEnvironment <==> env !in rows
      ensures begun == WrongState <==> env in rows && rows[env].status != if start then Stopped else Running
      ensures begun == Asked || begun == NoEnvironment || begun == WrongState
      ensures if begun == Asked then Steps(old(View()), AskMove(op, env, start), View()) else View() == old(View())
    {
      if env !in rows { return NoEnvironment; }
      var row := rows[env];
      var target := if start then Running else Stopped;
      if row.status != (if start then Stopped else Running) { return WrongState; }
      ops := ops[op := MoveAsked(env, row.agent, row.cid, target)];
      return Asked;
    }

    method AnswerTransition(op: nat, answer: MoveAnswer) returns (ended: bool)
      requires op in ops && ops[op].MoveAsked?
      modifies this`live, this`ops
      ensures Steps(old(View()), MoveEvent(op, old(ops)[op].target == Running, answer), View())
      ensures ended <==> answer == MoveNoClient
      ensures ended ==> View() == old(View()).(ops := old(ops) - {op})
      ensures answer == Moved ==> op in ops && ops[op] == MoveDone(old(ops)[op].env, old(ops)[op].target)
      ensures answer.MoveRejected? ==>
                op in ops && live == old(live)
                && ops[op] == MoveFailed(old(ops)[op].env, MoveFailure(old(ops)[op].target == Running, answer.why))
    {
      var MoveAsked(env, agent, cid, target) := ops[op];
      ended := false;
      match answer
      case MoveNoClient =>
        ops := ops - {op};
        ended := true;
      case MoveRejected(why) => ops := ops[op := MoveFailed(env, MoveFailure(target == Running, why))];
      case Moved =>
        if (agent, cid) in live { live := live[(agent, cid) := target == Running]; }
        ops := ops[op := MoveDone(env, target)];
    }

    method FinishTransition(op: nat) returns (response: Response)
      requires op in ops && (ops[op].MoveDone? || ops[op].MoveFailed?)
      modifies this`rows, this`ops
      ensures Steps(old(View()), Finish(op), View())
      ensures response == if old(ops)[op].MoveDone? then NoContent else BadGateway(old(ops)[op].why)
    {
      var request := ops[op];
      if request.MoveDone? {
        SetRow(request.env, request.target, "");
        response := NoContent;
      } else {
        SetRow(request.env, Error, request.why);
        response := BadGateway(request.why);
      }
      ops := ops - {op};
    }

    // ----- remove -----

    /** Not while the create may be in flight. */
    method BeginRemove(op: nat, env: nat) returns (begun: Begun)
      requires op !in ops
      modifies this`ops
      ensures begun == NoEnvironment <==> env !in rows
      ensures begun == StillCreating <==>
                env in rows && rows[env].status == Creating && now - rows[env].created < CREATE_GRACE
      ensures begun == Asked || begun == NoEnvironment || begun == StillCreating
      ensures if begun == Asked then Steps(old(View()), AskRemove(op, env), View()) else View() == old(View())
    {
      if env !in rows { return NoEnvironment; }
      var row := rows[env];
      if row.status == Creating && now - row.created < CREATE_GRACE { return StillCreating; }
      if row.cid == "" {
        ops := ops[op := RemoveDone(env)];
      } else {
        ops := ops[op := RemoveAsked(env, row.agent, row.cid, row.message == CONTAINER_MISSING)];
      }
      return Asked;
    }

    /** A failed removal counts as done if the row already said the container was missing. */
    method AnswerRemove(op: nat, answer: RemoveAnswer) returns (ended: bool)
      requires op in ops && ops[op].RemoveAsked?
      modifies this`live, this`ops
      ensures Steps(old(View()), RemoveEvent(op, answer), View())
      ensures ended <==> answer == RemoveNoClient
      ensures ended ==> View() == old(View()).(ops := old(ops) - {op})
      ensures answer == Gone ==> live == old(live) - {(old(ops)[op].agent, old(ops)[op].cid)}
      ensures answer.RemoveRejected? ==>
                op in ops && live == old(live)
                && ops[op] == if old(ops)[op].missing then RemoveDone(old(ops)[op].env)
                              else RemoveFailed(old(ops)[op].env, RemoveFailure(answer.why))
    {
      var RemoveAsked(env, agent, cid, missing) := ops[op];
      ended := false;
      match answer
      case RemoveNoClient =>
        ops := ops - {op};
        ended := true;
      case RemoveRejected(why) =>
        ops := ops[op := if missing then RemoveDone(env) else RemoveFailed(env, RemoveFailure(why))];
      case Gone =>
        live := live - {(agent, cid)};
        ops := ops[op := RemoveDone(env)];
    }

    method FinishRemove(op: nat) returns (response: Response)
      requires op in ops && (ops[op].RemoveDone? || ops[op].RemoveFailed?)
      modifies this`rows, this`ops
      ensures Steps(old(View()), Finish(op), View())
      ensures response == if old(ops)[op].RemoveDone? then NoContent else BadGateway(old(ops)[op].why)
    {
      var request := ops[op];
      if request.RemoveDone? {
        rows := rows - {request.env};
        response := NoContent;
      } else {
        SetRow(request.env, Error, request.why);
        response := BadGateway(request.why);
      }
      ops := ops - {op};
    }
  }
}
