/**
 * The camera registry (CameraManager): the list of cameras, the active one, and the input
 * and frame callbacks it hands on to the active camera. The singleton `instance()` becomes
 * an ordinary object. What a camera does with an event (FreeCamera's motion) is not part of
 * this model: a camera records the events it was handed, in order.
 */
module CameraManagement {
  import opened Vectors
  import Lists

  /** The calls CameraManager forwards, with the Qt event objects reduced to their payload. */
  datatype CameraEvent =
    | KeyPressed(key: int)
    | KeyReleased(key: int)
    | MousePressed(x: int, y: int)
    | MouseReleased(x: int, y: int)
    | MouseMoved(x: int, y: int)
    | Update(ifps: real)

  class Camera {
    /**
     * What Camera::getViewDirection answers, the camera's rotation applied to (0, 0, -1);
     * the quaternion arithmetic behind it is not part of this model.
     */
    var viewDirection: Vec3
    /** The events this camera's handlers have been called with, oldest first. */
    ghost var received: seq<CameraEvent>
    /** deleteLater has been called on this camera. */
    ghost var destroyed: bool

    constructor (viewDirection: Vec3)
      ensures this.viewDirection == viewDirection && received == [] && !destroyed
    {
      this.viewDirection := viewDirection;
      received := [];
      destroyed := false;
    }

    /** The camera's handler for one forwarded call. */
    method Handle(event: CameraEvent)
      modifies this`received
      ensures received == old(received) + [event]
    {
      received := received + [event];
    }
  }

  class CameraManager {
    var cameras: seq<Camera>
    var activeCamera: Camera?

    /** The singleton starts with no cameras and no active camera. */
    constructor ()
      ensures cameras == [] && activeCamera == null
    {
      cameras := [];
      activeCamera := null;
    }

    method AddCamera(camera: Camera)
      modifies this`cameras
      ensures cameras == old(cameras) + [camera]
    {
      cameras := cameras + [camera];
    }

    /**
     * removeCamera: null does nothing. Otherwise the camera stops being active if it was,
     * every occurrence leaves the list, and the camera is deleted; another active camera
     * stays active.
     */
    method RemoveCamera(camera: Camera?)
      modifies this`cameras, this`activeCamera, (if camera == null then {} else {camera})`destroyed
      ensures camera == null ==> cameras == old(cameras) && activeCamera == old(activeCamera)
      ensures camera != null ==> cameras == Lists.RemoveAll<Camera>(old(cameras), camera) && camera.destroyed
      ensures camera != null ==> activeCamera != camera
      ensures camera != old(activeCamera) ==> activeCamera == old(activeCamera)
      ensures camera != null && camera == old(activeCamera) ==> activeCamera == null
    {
      if camera != null {
        if camera == activeCamera {
          activeCamera := null;
        }
        cameras := Lists.RemoveAll<Camera>(cameras, camera);
        camera.destroyed := true;
      }
    }

    /** setActiveCamera stores any camera, listed or not, or null. */
    method SetActiveCamera(newActiveCamera: Camera?)
      modifies this`activeCamera
      ensures activeCamera == newActiveCamera
    {
      activeCamera := newActiveCamera;
    }

    /** Every forwarder: the active camera handles the call; with none, nothing happens. */
    method Forward(event: CameraEvent)
      modifies (if activeCamera == null then {} else {activeCamera})`received
      ensures activeCamera != null ==> activeCamera.received == old(activeCamera.received) + [event]
    {
      if activeCamera != null {
        activeCamera.Handle(event);
      }
    }

    method OnKeyPressed(key: int)
      modifies (if activeCamera == null then {} else {activeCamera})`received
      ensures activeCamera != null ==> activeCamera.received == old(activeCamera.received) + [KeyPressed(key)]
    {
      Forward(KeyPressed(key));
    }

    method OnKeyReleased(key: int)
      modifies (if activeCamera == null then {} else {activeCamera})`received
      ensures activeCamera != null ==> activeCamera.received == old(activeCamera.received) + [KeyReleased(key)]
    {
      Forward(KeyReleased(key));
    }

    method OnMousePressed(x: int, y: int)
      modifies (if activeCamera == null then {} else {activeCamera})`received
      ensures activeCamera != null ==> activeCamera.received == old(activeCamera.received) + [MousePressed(x, y)]
    {
      Forward(MousePressed(x, y));
    }

    method OnMouseReleased(x: int, y: int)
      modifies (if activeCamera == null then {} else {activeCamera})`received
      ensures activeCamera != null ==> activeCamera.received == old(activeCamera.received) + [MouseReleased(x, y)]
    {
      Forward(MouseReleased(x, y));
    }

    method OnMouseMoved(x: int, y: int)
      modifies (if activeCamera == null then {} else {activeCamera})`received
      ensures activeCamera != null ==> activeCamera.received == old(activeCamera.received) + [MouseMoved(x, y)]
    {
      Forward(MouseMoved(x, y));
    }

    /** update(ifps): the frame tick, forwarded like the input events. */
    method UpdateActive(ifps: real)
      modifies (if activeCamera == null then {} else {activeCamera})`received
      ensures activeCamera != null ==> activeCamera.received == old(activeCamera.received) + [Update(ifps)]
    {
      Forward(Update(ifps));
    }

    /** getViewDirection: the active camera's view direction, or the zero vector without one. */
    method GetViewDirection() returns (direction: Vec3)
      ensures activeCamera == null ==> direction == Zero
      ensures activeCamera != null ==> direction == activeCamera.viewDirection
    {
      if activeCamera != null {
        return activeCamera.viewDirection;
      }
      return Zero;
    }
  }

  /**
   * Removing the active camera and then forwarding an event reaches no camera: the removed
   * camera's log is what it was before the removal.
   */
  method RemovedCameraHearsNothing(manager: CameraManager, camera: Camera, event: CameraEvent)
    requires manager.activeCamera == camera
    modifies manager, camera
    ensures manager.activeCamera == null
    ensures camera.received == old(camera.received)
  {
    manager.RemoveCamera(camera);
    manager.Forward(event);
  }
}
