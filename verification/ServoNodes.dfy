/** The two servo bridges as the objects that ROS calls back: filters and goals in arrays, overwritten in loops. */
module ServoNodes {
  import opened Params
  import opened LowPass
  import opened Servos
  import Dynamixel
  import Gazebo

  class Px4ServoToDynamixel {
    const servoLpf: array<Lpf>
    const latestGoalPpr: array<int>
    var ddsReceived: bool
    var haveGoal: bool
    var returningToZero: bool
    var zeroReturnComplete: bool
    var lastDdsReceive: real
    var returnStart: real

    /** Goals handed to write_goal, in order. */
    var written: seq<seq<int>>

    ghost predicate Valid()
      reads this
    {
      servoLpf.Length == DXL_COUNT && latestGoalPpr.Length == DXL_COUNT
    }

    ghost function View(): (b: Dynamixel.Bridge)
      requires Valid()
      reads this, servoLpf, latestGoalPpr
      ensures Dynamixel.Shaped(b)
    {
      Dynamixel.Bridge(servoLpf[..], latestGoalPpr[..], ddsReceived, haveGoal, returningToZero, zeroReturnComplete,
                       lastDdsReceive, returnStart)
    }

    constructor (ratio: real)
      ensures Valid() && fresh(servoLpf) && fresh(latestGoalPpr)
      ensures View() == Dynamixel.Init(ratio) && written == []
    {
      servoLpf := new Lpf[DXL_COUNT](_ => Filter(ratio));
      latestGoalPpr := new int[DXL_COUNT](_ => 0);
      ddsReceived, haveGoal, returningToZero, zeroReturnComplete := false, false, false, false;
      lastDdsReceive, returnStart := 0.0, 0.0;
      written := [];
    }

    method DdsCallback(now: real, control: Controls)
      requires Valid()
      modifies this, servoLpf, latestGoalPpr
      ensures View() == Dynamixel.Receive(old(View()), now, control) && written == old(written)
    {
      var k := 0;
      while k < DXL_COUNT
        invariant k <= DXL_COUNT
        invariant forall j :: 0 <= j < k ==> control[j].Finite?
      {
        if control[k].NonFinite? { return; }
        k := k + 1;
      }

      lastDdsReceive := now;
      ddsReceived := true;
      returningToZero := false;
      zeroReturnComplete := false;
      var i := 0;
      while i < DXL_COUNT
        invariant i <= DXL_COUNT
        invariant forall j :: 0 <= j < i ==>
          && servoLpf[j] == old(servoLpf[j]).Reset(Dynamixel.Target(control, j))
          && latestGoalPpr[j] == ToPpr(j, Dynamixel.Target(control, j))
        invariant forall j :: i <= j < DXL_COUNT ==> servoLpf[j] == old(servoLpf[j])
        modifies servoLpf, latestGoalPpr
      {
        hide ToPpr, Angle;
        var rad := Angle(control[i].v, DXL_LIMIT_RAD[i]);
        servoLpf[i] := servoLpf[i].Reset(rad);
        latestGoalPpr[i] := ToPpr(i, rad);
        i := i + 1;
      }
      haveGoal := true;
    }

    method TimeoutCallback(now: real)
      requires Valid()
      modifies this, servoLpf, latestGoalPpr
      ensures View() == Dynamixel.Timeout(old(View()), now)
      ensures written == old(written) + if old(ddsReceived) && old(haveGoal) then [View().goal] else []
    {
      hide ToPpr, Lpf.Update;
      if !ddsReceived || !haveGoal { return; }
      if now - lastDdsReceive >= DDS_RECEIVE_TIMEOUT_SEC && !zeroReturnComplete {
        if !returningToZero {
          returningToZero := true;
          returnStart := now;
        }
        var returnFinished := now - returnStart >= SERVO_RETURN_TIME_SEC;
        AdvanceReturn(returnFinished);
        if returnFinished {
          returningToZero := false;
          zeroReturnComplete := true;
        }
      }
      written := written + [latestGoalPpr[..]];
    }

    /** The body of the return: the filters advance in a copy, which is kept unless the return is over. */
    method AdvanceReturn(returnFinished: bool)
      requires Valid()
      modifies servoLpf, latestGoalPpr
      ensures forall j :: 0 <= j < DXL_COUNT ==>
        servoLpf[j] == if returnFinished then old(servoLpf[j]).Reset(0.0) else old(servoLpf[j]).Update(0.0)
      ensures forall j :: 0 <= j < DXL_COUNT ==> latestGoalPpr[j] == ToPpr(j, servoLpf[j].y)
    {
      hide ToPpr, Lpf.Update;
      var nextLpf := servoLpf[..];
      var i := 0;
      while i < DXL_COUNT
        invariant i <= DXL_COUNT && |nextLpf| == DXL_COUNT
        invariant forall j :: 0 <= j < i && !returnFinished ==> nextLpf[j] == old(servoLpf[j]).Update(0.0)
        invariant forall j :: i <= j < DXL_COUNT ==> nextLpf[j] == old(servoLpf[j])
        invariant forall j :: 0 <= j < i ==> latestGoalPpr[j] == ToPpr(j, if returnFinished then 0.0 else nextLpf[j].y)
        invariant forall j :: 0 <= j < DXL_COUNT ==> servoLpf[j] == old(servoLpf[j])
        modifies latestGoalPpr
      {
        var rad := 0.0;
        if !returnFinished {
          nextLpf := nextLpf[i := nextLpf[i].Update(0.0)];
          rad := nextLpf[i].y;
        }
        latestGoalPpr[i] := ToPpr(i, rad);
        i := i + 1;
      }

      var k := 0;
      while k < DXL_COUNT
        invariant k <= DXL_COUNT
        invariant forall j :: 0 <= j < k ==>
                    servoLpf[j] == if returnFinished then old(servoLpf[j]).Reset(0.0) else nextLpf[j]
        invariant forall j :: k <= j < DXL_COUNT ==> servoLpf[j] == old(servoLpf[j])
        modifies servoLpf
      {
        servoLpf[k] := if returnFinished then servoLpf[k].Reset(0.0) else nextLpf[k];
        k := k + 1;
      }
    }
  }

  class Px4ServoToGz {
    const servoLpf: array<Lpf>
    var returningToZero: bool
    var lastActuatorMsg: real
    var returnStart: real

    /** Joint commands published so far, in order. */
    var published: seq<seq<real>>

    ghost predicate Valid()
      reads this
    {
      servoLpf.Length == GZ_COUNT
    }

    ghost function View(): (b: Gazebo.Bridge)
      requires Valid()
      reads this, servoLpf
      ensures Gazebo.Shaped(b)
    {
      Gazebo.Bridge(servoLpf[..], returningToZero, lastActuatorMsg, returnStart)
    }

    constructor (ratio: real)
      ensures Valid() && fresh(servoLpf) && View() == Gazebo.Init(ratio) && published == []
    {
      servoLpf := new Lpf[GZ_COUNT](_ => Filter(ratio));
      returningToZero, lastActuatorMsg, returnStart := false, 0.0, 0.0;
      published := [];
    }

    method ActuatorServosCallback(now: real, control: Controls)
      requires Valid()
      modifies this, servoLpf
      ensures View() == Gazebo.Receive(old(View()), now, control)
      ensures published == old(published) + [Angles(View().lpf)]
    {
      hide Angle;
      lastActuatorMsg := now;
      returningToZero := false;
      var i := 0;
      while i < GZ_COUNT
        invariant i <= GZ_COUNT
        invariant forall j :: 0 <= j < i ==> servoLpf[j] == old(servoLpf[j]).Reset(Gazebo.Target(control, j))
        invariant forall j :: i <= j < GZ_COUNT ==> servoLpf[j] == old(servoLpf[j])
        modifies servoLpf
      {
        servoLpf[i] := servoLpf[i].Reset(Gazebo.Target(control, i));
        i := i + 1;
      }
      published := published + [Angles(servoLpf[..])];
    }

    method TimerCallback(now: real)
      requires Valid()
      modifies this, servoLpf
      ensures View() == Gazebo.Tick(old(View()), now)
      ensures published == old(published)
                + if now - old(lastActuatorMsg) < DDS_RECEIVE_TIMEOUT_SEC then [] else [Angles(View().lpf)]
    {
      hide Lpf.Update;
      if now - lastActuatorMsg < DDS_RECEIVE_TIMEOUT_SEC {
        returningToZero := false;
        return;
      }
      if !returningToZero {
        returningToZero := true;
        returnStart := now;
      }
      var returnFinished := now - returnStart >= SERVO_RETURN_TIME_SEC;
      var i := 0;
      while i < GZ_COUNT
        invariant i <= GZ_COUNT
        invariant forall j :: 0 <= j < i ==>
          servoLpf[j] ==
          if returnFinished then old(servoLpf[j]).Update(0.0).Reset(0.0) else old(servoLpf[j]).Update(0.0)
        invariant forall j :: i <= j < GZ_COUNT ==> servoLpf[j] == old(servoLpf[j])
        modifies servoLpf
      {
        servoLpf[i] := servoLpf[i].Update(0.0);
        if returnFinished {
          servoLpf[i] := servoLpf[i].Reset(0.0);
        }
        i := i + 1;
      }
      published := published + [Angles(servoLpf[..])];
    }
  }

  function Angles(filters: seq<Lpf>): seq<real> {
    seq(|filters|, i requires 0 <= i < |filters| => filters[i].y)
  }
}
